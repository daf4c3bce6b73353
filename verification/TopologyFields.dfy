/** The shared fields of the monitor, one at a time: which events of a run change it and to what, and that none else does. */
module TopologyFields {

  import opened Options
  import opened TopologyConnections
  import opened TopologyRuns
  import opened TopologyOrder

  // The monitor finds a writer connection in the slot that still answers.
  predicate Adopts(s: State, e: Event) { e.Main? && e.main.Polled? && e.main.verified && Held(s, WriterConn) != None }

  predicate DropsMain(e: Event) { e in {App(DropMain), App(Destroy), Main(RegularDropped), Main(OpenDropped)} }

  predicate InstallsMain(s: State, e: Event) { e.Main? && e.main.OpenInstalled? && Held(s, MainConn) == None }

  // ---------- flags ----------

  function RunningAfter(s: State, e: Event): bool {
    if e == App(StartMonitor) then true else if e == App(SignalRunning) then false else s.running
  }

  // Node threads are told to stop by whoever hands a writer over, by the monitor that adopts it and from outside.
  function StopAfter(s: State, e: Event): bool {
    if e == App(SignalStop) || Adopts(s, e) || (e.Node? && e.act.HandleWriter?) then true
    else if e == Main(ChooseHandler) && s.threads == map[] then false else s.stop
  }

  function WriterFlagAfter(s: State, e: Event): bool {
    if Adopts(s, e) || (InstallsMain(s, e) && e.main.role) then true
    else if e == App(ClearWriterFlag) || (DropsMain(e) && e != App(Destroy)) then false else s.isWriter
  }

  lemma MainSetsFlags(s: State, e: MainEvent)
    requires MainEnabled(s, e)
    ensures var s' := ApplyMain(s, e); s'.running == s.running && s'.stop == StopAfter(s, Main(e))
    ensures ApplyMain(s, e).isWriter == WriterFlagAfter(s, Main(e))
  {
    hide Freed;
  }

  lemma NodeSetsFlags(s: State, n: Host, e: NodeEvent)
    requires NodeEnabled(s, n, e)
    ensures var s' := ApplyNode(s, n, e); s'.running == s.running && s'.isWriter == s.isWriter
    ensures ApplyNode(s, n, e).stop == StopAfter(s, Node(n, e))
  {
    hide Freed;
  }

  /** The three flags after any event. */
  lemma FlagsAfter(s: State, e: Event)
    requires Enabled(s, e)
    ensures var s' := Apply(s, e);
      s'.running == RunningAfter(s, e) && s'.stop == StopAfter(s, e) && s'.isWriter == WriterFlagAfter(s, e)
  {
    match e
    case App(_) =>
    case Main(m) => MainSetsFlags(s, m);
    case Node(n, a) => NodeSetsFlags(s, n, a);
  }

  // ---------- connections ----------

  function MainConnAfter(s: State, e: Event): Option<Dbc> {
    if DropsMain(e) then None
    else if InstallsMain(s, e) then Held(s, LocalConn)
    else if Adopts(s, e) then Held(s, WriterConn)
    else Held(s, MainConn)
  }

  function WriterConnAfter(s: State, e: Event): Option<Dbc> {
    if e == Main(InitFreeWriter) || Adopts(s, e) then None
    else if e.Node? && e.act.HandleWriter? && Held(s, WriterConn) == None then Held(s, NodeConn(e.node))
    else Held(s, WriterConn)
  }

  function ReaderConnAfter(s: State, e: Event): Option<Dbc> {
    if e == Main(InitFreeReader) then None
    else if e.Node? && e.act.ClaimSlot? && Held(s, ReaderConn) == None then Held(s, NodeConn(e.node))
    else Held(s, ReaderConn)
  }

  // The connection that the main thread opens is its own until it is installed or freed.
  function LocalConnAfter(s: State, e: Event): Option<Dbc> {
    match e
    case App(a) => if a.Destroy? then None else Held(s, LocalConn)
    case Main(m) =>
      if m.OpenTested? then (if Held(s, MainConn) == None then Some(s.next) else None)
      else if m == OpenConnected(true) then Held(s, LocalConn) else None
    case Node(_, _) => Held(s, LocalConn)
  }

  function OwnConnAfter(s: State, n: Host, a: NodeEvent): Option<Dbc> {
    match a
    case Probed(reachable, _) => if reachable && Held(s, NodeConn(n)) != None then Held(s, NodeConn(n)) else Some(s.next)
    case Connected(ok) => if ok then Held(s, NodeConn(n)) else None
    case HandleWriter => None
    case ClaimSlot => if Held(s, ReaderConn) == None then None else Held(s, NodeConn(n))
    case Close => None
    case _ => Held(s, NodeConn(n))
  }

  // The host for which an event starts a thread.
  predicate Starts(s: State, pending: seq<Host>, e: Event, n: Host) {
    e == Main(AddNode) && pending != [] && n == pending[0] && n !in s.threads
  }

  function NodeConnAfter(s: State, pending: seq<Host>, e: Event, n: Host): Option<Dbc> {
    if e.Node? && e.node == n then OwnConnAfter(s, n, e.act)
    else if e == Main(JoinNode(n)) then None
    else if Starts(s, pending, e, n) then Some(s.next)
    else Held(s, NodeConn(n))
  }

  lemma MainChangesHolders(s: State, e: MainEvent)
    requires MainEnabled(s, e)
    ensures var s' := ApplyMain(s, e);
      && Held(s', MainConn) == MainConnAfter(s, Main(e)) && Held(s', WriterConn) == WriterConnAfter(s, Main(e))
      && Held(s', ReaderConn) == ReaderConnAfter(s, Main(e))
  {
    hide Freed;
  }

  lemma MainChangesLocal(s: State, e: MainEvent)
    requires MainEnabled(s, e)
    ensures Held(ApplyMain(s, e), LocalConn) == LocalConnAfter(s, Main(e))
  {
    hide Freed;
  }

  lemma NodeChangesHolders(s: State, n: Host, e: NodeEvent)
    requires NodeEnabled(s, n, e)
    ensures var s' := ApplyNode(s, n, e);
      && Held(s', MainConn) == Held(s, MainConn) && Held(s', WriterConn) == WriterConnAfter(s, Node(n, e))
      && Held(s', ReaderConn) == ReaderConnAfter(s, Node(n, e)) && Held(s', LocalConn) == Held(s, LocalConn)
  {
    hide Freed;
  }

  lemma NodeChangesOwn(s: State, n: Host, e: NodeEvent)
    requires NodeEnabled(s, n, e)
    ensures Held(ApplyNode(s, n, e), NodeConn(n)) == OwnConnAfter(s, n, e)
  {
    hide Freed;
  }

  /** What the four places of the monitor hold after any event. */
  lemma HoldersAfter(s: State, e: Event)
    requires Enabled(s, e)
    ensures var s' := Apply(s, e);
      && Held(s', MainConn) == MainConnAfter(s, e) && Held(s', WriterConn) == WriterConnAfter(s, e)
      && Held(s', ReaderConn) == ReaderConnAfter(s, e) && Held(s', LocalConn) == LocalConnAfter(s, e)
  {
    hide ApplyMain, ApplyNode;
    match e
    case App(_) =>
    case Main(m) => MainChangesHolders(s, m); MainChangesLocal(s, m);
    case Node(n, a) => NodeChangesHolders(s, n, a);
  }

  predicate ServesReader(s: State, n: Host) { n in s.threads && s.threads[n].readerUpdates }

  lemma MainChangesThread(s: State, pending: seq<Host>, e: MainEvent, n: Host)
    requires MainEnabled(s, e) && (s.pc.Spawning? || s.pc.Adding? ==> s.pc.hosts == pending)
    ensures var s' := ApplyMain(s, e);
      && Held(s', NodeConn(n)) == NodeConnAfter(s, pending, Main(e), n)
      && (n in s'.threads <==> Starts(s, pending, Main(e), n) || (n in s.threads && e != JoinNode(n)))
      && (ServesReader(s', n) <==> n in s'.threads && ServesReader(s, n))
  {
    hide Freed;
  }

  lemma NodeChangesThreads(s: State, n: Host, e: NodeEvent, k: Host)
    requires NodeEnabled(s, n, e)
    ensures var s' := ApplyNode(s, n, e);
      && (k in s'.threads <==> k in s.threads)
      && (ServesReader(s', k) <==> ServesReader(s, k) || (k == n && e.ClaimSlot?))
      && (k != n ==> Held(s', NodeConn(k)) == Held(s, NodeConn(k)))
  {
    hide Freed;
    NodeIsLocal(s, n, e);
  }

  /** What a node thread holds after any event of a run, whether there is one, and whether it serves as the reader: threads are
      started for the hosts the main thread was given, one per host, each with a connection that nobody had before. */
  lemma ThreadAfter(es: seq<Event>, e: Event, n: Host)
    requires Runs(INITIAL, es) && Enabled(Exec(INITIAL, es), e)
    ensures var s, s' := Exec(INITIAL, es), Apply(Exec(INITIAL, es), e);
      && Held(s', NodeConn(n)) == NodeConnAfter(s, Pending(es), e, n)
      && (n in s'.threads <==> Starts(s, Pending(es), e, n) || (n in s.threads && e != Main(JoinNode(n))))
      && (ServesReader(s', n) <==> n in s'.threads && (ServesReader(s, n) || e == Node(n, ClaimSlot)))
  {
    hide ApplyMain, ApplyNode, Pending;
    var s := Exec(INITIAL, es);
    match e
    case App(_) =>
    case Main(m) => RunRemembers(es); MainChangesThread(s, Pending(es), m, n);
    case Node(k, a) =>
      NodeChangesThreads(s, k, a, n);
      if k == n { NodeChangesOwn(s, k, a); }
  }

  // ---------- stopping ----------

  // A writer that waits to be adopted, or has just been.
  predicate WriterIsWaiting(s: State) { (s.writerSlot.Some? && !s.pc.InitWriterSlot?) || s.pc.Joining? }

  lemma MainKeepsStop(s: State, e: MainEvent)
    requires MainEnabled(s, e) && (WriterIsWaiting(s) ==> s.stop)
    ensures WriterIsWaiting(ApplyMain(s, e)) ==> ApplyMain(s, e).stop
  {
    hide Freed;
  }

  lemma NodeKeepsStop(s: State, n: Host, e: NodeEvent)
    requires NodeEnabled(s, n, e) && (WriterIsWaiting(s) ==> s.stop)
    ensures WriterIsWaiting(ApplyNode(s, n, e)) ==> ApplyNode(s, n, e).stop
  {
    hide Freed;
  }

  /** Over every run, from the hand-over of a writer until the threads have been joined they are told to stop, so that joining
      them under the mutexes does not wait for a thread that goes on. */
  lemma {:induction false} StoppedUntilJoined(es: seq<Event>)
    requires Runs(INITIAL, es)
    ensures WriterIsWaiting(Exec(INITIAL, es)) ==> Exec(INITIAL, es).stop
    decreases |es|
  {
    hide ApplyMain, ApplyNode, MainEnabled, NodeEnabled;
    if es != [] {
      var k := |es| - 1;
      assert es == es[..k] + [es[k]];
      RunsSplit(INITIAL, es[..k], es[k]);
      StoppedUntilJoined(es[..k]);
      match es[k]
      case App(_) =>
      case Main(m) => MainKeepsStop(Exec(INITIAL, es[..k]), m);
      case Node(n, a) => NodeKeepsStop(Exec(INITIAL, es[..k]), n, a);
    }
  }
}
