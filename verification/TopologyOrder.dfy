/** The order of events within one thread. The protocol says by program counters what comes next; here the same is said in
    terms of the events of a run alone: which event of a thread may follow which, given the answers and what the thread saw,
    however many events of others come in between. */
module TopologyOrder {

  import opened Options
  import opened TopologyConnections
  import opened TopologyRuns

  // ---------- mutexes ----------

  // Whether the main thread holds the writer mutex, and hdbc_mutex_, across its events: from the events of a run.
  ghost function WriterMutexTaken(es: seq<Event>): bool
    requires Runs(INITIAL, es)
    decreases |es|
  {
    if es == [] then false
    else
      RunsBefore(es, |es| - 1);
      match es[|es| - 1]
      case Main(Polled(_, _)) => true
      case Main(AddNode) => Pending(es[..|es| - 1]) != [] && WriterMutexTaken(es[..|es| - 1])
      case Main(JoinsDone) => false
      case _ => WriterMutexTaken(es[..|es| - 1])
  }

  ghost function HdbcMutexTaken(es: seq<Event>): bool
    requires Runs(INITIAL, es)
    decreases |es|
  {
    if es == [] then false
    else
      RunsBefore(es, |es| - 1);
      match es[|es| - 1]
      case Main(RegularLocked) => true
      case Main(RegularFetched(_)) => false
      case Main(Polled(verified, _)) => verified && Held(Exec(INITIAL, es[..|es| - 1]), WriterConn) != None
      case Main(JoinsDone) => false
      case _ => HdbcMutexTaken(es[..|es| - 1])
  }

  ghost predicate MutexesAre(s: State, writer: bool, hdbc: bool) {
    s.pc != Destroyed ==> (WriterMutexHeld(s) <==> writer) && (HdbcMutexHeld(s) <==> hdbc)
  }

  lemma OneMoreTaken(es: seq<Event>, e: Event)
    requires Runs(INITIAL, es + [e]) && Runs(INITIAL, es)
    ensures WriterMutexTaken(es + [e]) ==
      match e
      case Main(Polled(_, _)) => true
      case Main(AddNode) => Pending(es) != [] && WriterMutexTaken(es)
      case Main(JoinsDone) => false
      case _ => WriterMutexTaken(es)
    ensures HdbcMutexTaken(es + [e]) ==
      match e
      case Main(RegularLocked) => true
      case Main(RegularFetched(_)) => false
      case Main(Polled(verified, _)) => verified && Held(Exec(INITIAL, es), WriterConn) != None
      case Main(JoinsDone) => false
      case _ => HdbcMutexTaken(es)
  {
    assert (es + [e])[..|es|] == es;
  }

  lemma MainTakesMutexes(s: State, e: MainEvent, pending: seq<Host>, writer: bool, hdbc: bool)
    requires s.pc != Destroyed && MutexesAre(s, writer, hdbc) && MainEnabled(s, e)
    requires s.pc.Spawning? || s.pc.Adding? ==> s.pc.hosts == pending
    ensures MutexesAre(
      ApplyMain(s, e),
      (match e case Polled(_, _) => true case AddNode => pending != [] && writer case JoinsDone => false case _ => writer),
      (match e
       case RegularLocked => true case RegularFetched(_) => false
       case Polled(verified, _) => verified && Held(s, WriterConn) != None
       case JoinsDone => false case _ => hdbc))
  {
    hide Freed;
  }

  lemma {:induction false} MutexesAreTaken(es: seq<Event>)
    requires Runs(INITIAL, es)
    ensures MutexesAre(Exec(INITIAL, es), WriterMutexTaken(es), HdbcMutexTaken(es))
    decreases |es|
  {
    hide ApplyApp, ApplyMain, ApplyNode, AppEnabled, MainEnabled, NodeEnabled, Pending, WriterMutexTaken, HdbcMutexTaken;
    if es == [] {
      NothingTaken();
    } else {
      var k := |es| - 1;
      var before, e := es[..k], es[k];
      assert es == before + [e];
      RunsSplit(INITIAL, before, e);
      MutexesAreTaken(before);
      OneMoreTaken(before, e);
      match e
      case App(a) => AppTakesNothing(Exec(INITIAL, before), a);
      case Main(m) =>
        RunRemembers(before);
        MainTakesMutexes(Exec(INITIAL, before), m, Pending(before), WriterMutexTaken(before), HdbcMutexTaken(before));
      case Node(n, a) => NodeKeepsMain(Exec(INITIAL, before), n, a);
    }
  }

  lemma AppTakesNothing(s: State, e: AppEvent)
    requires AppEnabled(s, e)
    ensures ApplyApp(s, e).pc == Destroyed || (WriterMutexHeld(ApplyApp(s, e)) <==> WriterMutexHeld(s))
    ensures ApplyApp(s, e).pc == Destroyed || (HdbcMutexHeld(ApplyApp(s, e)) <==> HdbcMutexHeld(s))
  {
  }

  lemma NothingTaken()
    ensures !WriterMutexTaken([]) && !HdbcMutexTaken([])
  {
  }

  /** A ForceRefresh can drop the main connection, or only forget that it is the writer's, exactly when the main thread is
      not between taking and giving up hdbc_mutex_. */
  lemma DropsUnlessLocked(es: seq<Event>)
    requires Runs(INITIAL, es) && Exec(INITIAL, es).pc != Destroyed
    ensures Enabled(Exec(INITIAL, es), App(DropMain)) <==> !HdbcMutexTaken(es)
    ensures Enabled(Exec(INITIAL, es), App(ClearWriterFlag)) <==> !HdbcMutexTaken(es)
  {
    MutexesAreTaken(es);
  }

  // ---------- node threads ----------

  // NodeMonitoringThread::Run: what thread n does after `a`, which it did in state s.
  predicate NodeFollows(s: State, n: Host, a: NodeEvent, next: NodeEvent)
    requires n in s.threads
  {
    match a
    case TestStop => if s.stop then next.Close? else next.Probed?
    case Probed(reachable, writer) =>
      if !reachable || Held(s, NodeConn(n)) == None then next.Connected?
      else if writer then next.HandleWriter? else next.HandleReader?
    case Connected(_) => next.TestStop?
    case HandleWriter => next.TestStop?
    case HandleReader =>
      if s.writerSlot.Some? then next.TestStop?
      else if s.threads[n].readerUpdates then next.FetchSlot? else next.ClaimSlot?
    case ClaimSlot => next.FetchSlot?
    case FetchSlot => next.Queried?
    case Queried => next.TestStop?
    case Close => false
  }

  // Neither an event of the thread nor its destruction.
  predicate LeavesThread(e: Event, n: Host) { !(e.Node? && e.node == n) && e != Main(JoinNode(n)) }

  predicate AllLeaveThread(es: seq<Event>, n: Host) { forall e :: e in es ==> LeavesThread(e, n) }

  lemma MainLeavesThread(s: State, n: Host, e: MainEvent)
    requires n in s.threads && MainEnabled(s, e) && e != JoinNode(n)
    ensures n in ApplyMain(s, e).threads && ApplyMain(s, e).threads[n] == s.threads[n]
  {
    hide Freed;
  }

  lemma OthersLeaveThread(s: State, n: Host, e: Event)
    requires n in s.threads && Enabled(s, e) && LeavesThread(e, n)
    ensures n in Apply(s, e).threads && Apply(s, e).threads[n] == s.threads[n]
  {
    hide ApplyMain, ApplyNode, Freed;
    match e
    case App(_) =>
    case Main(m) => MainLeavesThread(s, n, m);
    case Node(k, a) => NodeIsLocal(s, k, a);
  }

  lemma {:induction false} ThreadStays(s: State, n: Host, es: seq<Event>)
    requires n in s.threads && Runs(s, es) && AllLeaveThread(es, n)
    ensures n in Exec(s, es).threads && Exec(s, es).threads[n] == s.threads[n]
    decreases |es|
  {
    if es != [] {
      OthersLeaveThread(s, n, es[0]);
      ThreadStays(Apply(s, es[0]), n, es[1..]);
    }
  }

  // What a thread has to wait for: the writer mutex, and a reader connection to read.
  ghost predicate NodeMayGoOn(es: seq<Event>, s: State, next: NodeEvent)
    requires Runs(INITIAL, es)
  {
    (next.HandleWriter? ==> !WriterMutexTaken(es)) && (next.FetchSlot? ==> s.readerSlot.Some?)
  }

  predicate NodeStandsAt(pc: NodePc, next: NodeEvent) {
    match next
    case TestStop => pc.Top?
    case Probed(_, _) => pc.Probing?
    case Connected(_) => pc.Connecting?
    case HandleWriter => pc.AtWriter?
    case HandleReader => pc.AtReader?
    case ClaimSlot => pc.AtClaim?
    case FetchSlot => pc.AtFetch?
    case Queried => pc.AtQuery?
    case Close => pc.Closing?
  }

  lemma NodeEnabledWhereItStands(s: State, n: Host, next: NodeEvent)
    requires n in s.threads
    ensures NodeEnabled(s, n, next) <==>
      NodeStandsAt(s.threads[n].pc, next) && (next.HandleWriter? ==> !WriterMutexHeld(s)) && (next.FetchSlot? ==> s.readerSlot.Some?)
  {
  }

  lemma NodeStandsWhereItFollows(s: State, n: Host, a: NodeEvent, next: NodeEvent)
    requires NodeEnabled(s, n, a) && n in ApplyNode(s, n, a).threads
    ensures NodeStandsAt(ApplyNode(s, n, a).threads[n].pc, next) <==> NodeFollows(s, n, a, next)
  {
    hide Freed;
  }

  lemma NextOfNode(s: State, n: Host, a: NodeEvent, s': State, next: NodeEvent)
    requires NodeEnabled(s, n, a) && n in s'.threads && n in ApplyNode(s, n, a).threads
    requires s'.threads[n] == ApplyNode(s, n, a).threads[n]
    ensures NodeEnabled(s', n, next) <==>
      NodeFollows(s, n, a, next) && (next.HandleWriter? ==> !WriterMutexHeld(s')) && (next.FetchSlot? ==> s'.readerSlot.Some?)
  {
    hide ApplyNode, NodeEnabled, NodeStandsAt, NodeFollows;
    NodeStandsWhereItFollows(s, n, a, next);
    NodeEnabledWhereItStands(s', n, next);
  }

  /** In every interleaving, after each of its events a node thread can go on exactly as its code says: what it saw and was
      answered then decides, and nothing that others do before its next event, but for what it waits for. */
  lemma NodeInOrder(before: seq<Event>, n: Host, a: NodeEvent, es: seq<Event>, next: NodeEvent)
    requires Runs(INITIAL, before + [Node(n, a)] + es) && AllLeaveThread(es, n)
    requires Exec(INITIAL, before + [Node(n, a)] + es).pc != Destroyed
    ensures Runs(INITIAL, before) && n in Exec(INITIAL, before).threads
    ensures var now := before + [Node(n, a)] + es;
      Enabled(Exec(INITIAL, now), Node(n, next)) <==>
        NodeFollows(Exec(INITIAL, before), n, a, next) && NodeMayGoOn(now, Exec(INITIAL, now), next)
  {
    hide ApplyNode, NodeFollows, NodeEnabled, WriterMutexHeld, WriterMutexTaken;
    RunsParts(INITIAL, before + [Node(n, a)], es);
    RunsSplit(INITIAL, before, Node(n, a));
    var s := Exec(INITIAL, before);
    NodeIsThere(s, n, a);
    NodeIsLocal(s, n, a);
    ThreadStays(Apply(s, Node(n, a)), n, es);
    MutexesAreTaken(before + [Node(n, a)] + es);
    NextOfNode(s, n, a, Exec(Apply(s, Node(n, a)), es), next);
  }

  lemma NodeIsThere(s: State, n: Host, a: NodeEvent)
    requires NodeEnabled(s, n, a)
    ensures n in s.threads
  {
  }

  lemma {:induction false} ThreadIsNew(s: State, n: Host, es: seq<Event>)
    requires (n in s.threads ==> s.threads[n].pc.Top?) && Runs(s, es) && forall e :: e in es ==> !(e.Node? && e.node == n)
    ensures n in Exec(s, es).threads ==> Exec(s, es).threads[n].pc.Top?
    decreases |es|
  {
    if es != [] {
      assert es[0] in es;
      OthersStartThread(s, n, es[0]);
      ThreadIsNew(Apply(s, es[0]), n, es[1..]);
    }
  }

  lemma OthersStartThread(s: State, n: Host, e: Event)
    requires (n in s.threads ==> s.threads[n].pc.Top?) && Enabled(s, e) && !(e.Node? && e.node == n)
    ensures n in Apply(s, e).threads ==> Apply(s, e).threads[n].pc.Top?
  {
    hide ApplyNode, ApplyMain;
    match e
    case App(_) =>
    case Main(m) => MainStartsThread(s, n, m);
    case Node(k, a) => NodeIsLocal(s, k, a);
  }

  lemma MainStartsThread(s: State, n: Host, e: MainEvent)
    requires (n in s.threads ==> s.threads[n].pc.Top?) && MainEnabled(s, e)
    ensures n in ApplyMain(s, e).threads ==> ApplyMain(s, e).threads[n].pc.Top?
  {
    hide Freed;
  }

  lemma NoThreadAtFirst(n: Host)
    ensures Runs(INITIAL, []) && n !in Exec(INITIAL, []).threads
  {
  }

  lemma JoinedIsGone(s: State, n: Host)
    requires MainEnabled(s, JoinNode(n))
    ensures n !in ApplyMain(s, JoinNode(n)).threads
  {
  }

  lemma NewLooksFirst(s: State, n: Host, next: NodeEvent)
    requires n in s.threads && s.threads[n].pc.Top?
    ensures NodeEnabled(s, n, next) <==> next == TestStop
  {
  }

  /** The first thing a thread does, from the start of a run or since the last thread for its host was destroyed, is to look
      whether it should stop. */
  lemma NodeBegins(before: seq<Event>, n: Host, es: seq<Event>, next: NodeEvent)
    requires before == [] || before[|before| - 1] == Main(JoinNode(n))
    requires Runs(INITIAL, before + es) && forall e :: e in es ==> !(e.Node? && e.node == n)
    requires n in Exec(INITIAL, before + es).threads && Exec(INITIAL, before + es).pc != Destroyed
    ensures Enabled(Exec(INITIAL, before + es), Node(n, next)) <==> next == TestStop
  {
    hide ApplyMain, ApplyNode, MainEnabled, Runs, Exec;
    RunsParts(INITIAL, before, es);
    if before == [] {
      NoThreadAtFirst(n);
    } else {
      var k := |before| - 1;
      assert before == before[..k] + [Main(JoinNode(n))];
      RunsSplit(INITIAL, before[..k], Main(JoinNode(n)));
      JoinedIsGone(Exec(INITIAL, before[..k]), n);
    }
    ThreadIsNew(Exec(INITIAL, before), n, es);
    NewLooksFirst(Exec(INITIAL, before + es), n, next);
  }

  // ---------- the hand-over, from the answer to the slot ----------

  /** A thread that finds the writer hands exactly that connection over with its next event, whatever comes in between:
      into the slot, or, if another thread was faster, it closes it. Either way it keeps none and all are told to stop. */
  lemma FoundWriterIsHandedOver(before: seq<Event>, n: Host, es: seq<Event>, next: NodeEvent, d: Dbc)
    requires Runs(INITIAL, before) && Enabled(Exec(INITIAL, before), Node(n, Probed(true, true)))
    requires Held(Exec(INITIAL, before), NodeConn(n)) == Some(d)
    requires Runs(Apply(Exec(INITIAL, before), Node(n, Probed(true, true))), es) && AllLeaveThread(es, n)
    requires Enabled(Exec(Apply(Exec(INITIAL, before), Node(n, Probed(true, true))), es), Node(n, next))
    ensures next == HandleWriter
    ensures var s := Exec(Apply(Exec(INITIAL, before), Node(n, Probed(true, true))), es);
      var s' := Apply(s, Node(n, HandleWriter));
      && s'.stop && Held(s', NodeConn(n)) == None
      && (if Held(s, WriterConn) == None then Held(s', WriterConn) == Some(d) && s'.live == s.live
          else Held(s', WriterConn) == Held(s, WriterConn) && s'.live == s.live - {d})
  {
    var s0 := Exec(INITIAL, before);
    ThreadStays(Apply(s0, Node(n, Probed(true, true))), n, es);
  }

  // ---------- the main thread ----------

  // The hosts the main thread was given last and has not started threads for yet, from the events of a run alone.
  function Pending(es: seq<Event>): seq<Host>
    decreases |es|
  {
    if es == [] then []
    else
      var was := Pending(es[..|es| - 1]);
      match es[|es| - 1]
      case Main(InitCached(cached)) => cached
      case Main(OpenFetched(found)) => found
      case Main(OpenConnected(_)) => []
      case Main(OpenDropped) => []
      case Main(Polled(_, latest)) => latest
      case Main(AddNode) => if was == [] then [] else was[1..]
      case _ => was
  }

  // What the main thread did last before it began to join threads.
  function Decision(es: seq<Event>): Option<MainEvent>
    decreases |es|
  {
    if es == [] then None
    else
      var e := es[|es| - 1];
      if e.Main? && !Joins(e.main) then Some(e.main) else Decision(es[..|es| - 1])
  }

  predicate Joins(e: MainEvent) { e.JoinNode? || e.JoinsDone? }

  // ClusterTopologyMonitor::Run and what it calls: what the main thread does after `a`, which it did in state s after the
  // events `before`.
  predicate MainFollows(before: seq<Event>, s: State, a: MainEvent, next: MainEvent) {
    match a
    case TestRunning =>
      if !s.running then Joins(next) else if s.main.Some? then next.TestWriterFlag? else next.ChooseHandler?
    case TestWriterFlag => if s.isWriter then Joins(next) else next.ChooseHandler?
    case ChooseHandler => if s.threads == map[] then next.InitFreeWriter? else next.Polled?
    case RegularLocked => next.RegularFetched?
    case RegularFetched(gotHosts) => if gotHosts then next.TestRunning? else next.RegularDropped?
    case RegularDropped => next.TestRunning?
    case InitFreeWriter => next.InitFreeReader?
    case InitFreeReader => next.InitCached?
    case InitCached(cached) => if cached != [] then next.SpawnTested? else next.OpenTested?
    case OpenTested => if s.main.Some? then next.OpenDereferenced? else next.OpenConnected?
    case OpenConnected(connected) => if connected then next.OpenInstalled? else next.SpawnTested?
    case OpenInstalled(_) => next.OpenDereferenced?
    case OpenDereferenced => next.OpenFetched?
    case OpenFetched(found) => if found == [] then next.OpenDropped? else next.SpawnTested?
    case OpenDropped => next.SpawnTested?
    case SpawnTested => if Pending(before) != [] && !s.isWriter then next.AddNode? else next.TestRunning?
    case AddNode => if Pending(before) != [] then next.AddNode? else next.TestRunning?
    case Polled(verified, _) => if verified && s.writerSlot.Some? then Joins(next) else next.AddNode?
    case JoinNode(_) => Joins(next)
    case JoinsDone =>
      (Decision(before) == Some(TestWriterFlag) && next.RegularLocked?)
      || (Decision(before).Some? && Decision(before).value.Polled? && next.TestRunning?)
  }

  // What the program counter of the main thread remembers of the run so far.
  ghost predicate Remembers(es: seq<Event>, pc: MainPc) {
    && (pc.SpawnTest? || pc.Spawning? || pc.Adding? ==> pc.hosts == Pending(es))
    && (pc.RegularEntry? ==> Decision(es) == Some(TestWriterFlag))
    && (pc.Joining? ==> Decision(es).Some? && Decision(es).value.Polled?)
    && (pc.ExitJoin? ==> Decision(es) == Some(TestRunning))
  }

  lemma OneMoreRemembered(es: seq<Event>, e: Event)
    ensures e.Main? && !Joins(e.main) ==> Decision(es + [e]) == Some(e.main)
    ensures !(e.Main? && !Joins(e.main)) ==> Decision(es + [e]) == Decision(es)
    ensures !e.Main? || Joins(e.main) ==> Pending(es + [e]) == Pending(es)
  {
    assert (es + [e])[..|es|] == es;
  }

  lemma MainRemembers(es: seq<Event>, s: State, e: MainEvent)
    requires Remembers(es, s.pc) && MainEnabled(s, e)
    ensures Remembers(es + [Main(e)], ApplyMain(s, e).pc)
  {
    hide Freed;
    OneMoreRemembered(es, Main(e));
    assert (es + [Main(e)])[..|es|] == es;
  }

  lemma {:induction false} RunRemembers(es: seq<Event>)
    requires Runs(INITIAL, es)
    ensures Remembers(es, Exec(INITIAL, es).pc)
    decreases |es|
  {
    hide ApplyApp, ApplyMain, ApplyNode, AppEnabled, MainEnabled, NodeEnabled, Pending, Decision, Remembers;
    if es == [] {
      NothingToRemember();
    } else {
      var k := |es| - 1;
      var s0, e := es[..k], es[k];
      assert es == s0 + [e];
      RunsSplit(INITIAL, s0, e);
      RunRemembers(s0);
      OneMoreRemembered(s0, e);
      match e
      case App(a) => AppRemembers(s0, Exec(INITIAL, s0), a);
      case Main(m) => MainRemembers(s0, Exec(INITIAL, s0), m);
      case Node(n, a) => NodeKeepsMain(Exec(INITIAL, s0), n, a); SameRemembered(s0, es, Exec(INITIAL, s0).pc);
    }
  }

  lemma NothingToRemember()
    ensures Remembers([], INITIAL.pc)
  {
  }

  lemma AppRemembers(es: seq<Event>, s: State, e: AppEvent)
    requires Remembers(es, s.pc) && AppEnabled(s, e)
    ensures Remembers(es + [App(e)], ApplyApp(s, e).pc)
  {
    hide Pending, Decision;
    OneMoreRemembered(es, App(e));
  }

  lemma SameRemembered(es: seq<Event>, longer: seq<Event>, pc: MainPc)
    requires Remembers(es, pc) && Pending(longer) == Pending(es) && Decision(longer) == Decision(es)
    ensures Remembers(longer, pc)
  {
  }

  lemma {:induction false} MainPcStays(s: State, es: seq<Event>)
    requires Runs(s, es) && !s.pc.Idle? && forall e :: e in es ==> !e.Main?
    ensures Exec(s, es).pc == s.pc || Exec(s, es).pc == Destroyed
    decreases |es|
  {
    hide ApplyMain, ApplyNode;
    if es != [] {
      assert es[0] in es;
      if es[0].Node? {
        NodeKeepsMain(s, es[0].node, es[0].act);
      }
      MainPcStays(Apply(s, es[0]), es[1..]);
    }
  }

  // What the main thread has to wait for: threads that end, and a connection to dereference.
  predicate MainMayGoOn(s: State, next: MainEvent) {
    match next
    case OpenDereferenced => s.main.Some?
    case JoinNode(n) => n in s.threads && s.threads[n].pc.Done?
    case JoinsDone => s.threads == map[]
    case _ => true
  }

  // Where an event belongs.
  predicate StandsAt(pc: MainPc, next: MainEvent) {
    match next
    case TestRunning => pc.LoopHead?
    case TestWriterFlag => pc.ReadWriterFlag?
    case ChooseHandler => pc.PanicEntry?
    case RegularLocked => pc.RegularFetch?
    case RegularFetched(_) => pc.RegularQuery?
    case RegularDropped => pc.RegularDrop?
    case InitFreeWriter => pc.InitWriterSlot?
    case InitFreeReader => pc.InitReaderSlot?
    case InitCached(_) => pc.InitHosts?
    case OpenTested => pc.OpenTest?
    case OpenConnected(_) => pc.OpenConnect?
    case OpenInstalled(_) => pc.OpenInstall?
    case OpenDereferenced => pc.OpenFetch?
    case OpenFetched(_) => pc.OpenQuery?
    case OpenDropped => pc.OpenDrop?
    case SpawnTested => pc.SpawnTest?
    case AddNode => pc.Spawning? || pc.Adding?
    case Polled(_, _) => pc.Polling?
    case JoinNode(_) | JoinsDone => JoiningAt(pc)
  }

  lemma EnabledWhereItStands(s: State, next: MainEvent)
    ensures MainEnabled(s, next) <==> StandsAt(s.pc, next) && MainMayGoOn(s, next)
  {
  }

  predicate Opening(e: MainEvent) { e.OpenTested? || e.OpenConnected? || e.OpenInstalled? }

  predicate Fetching(e: MainEvent) { e.OpenDereferenced? || e.OpenFetched? || e.OpenDropped? }

  predicate Starting(e: MainEvent) { e.ChooseHandler? || e.InitFreeWriter? || e.InitFreeReader? || e.InitCached? }

  predicate Spawns(e: MainEvent) { e.SpawnTested? || e.AddNode? }

  lemma FollowsOpening(before: seq<Event>, s: State, a: MainEvent, next: MainEvent)
    requires Opening(a) && MainEnabled(s, a)
    ensures StandsAt(ApplyMain(s, a).pc, next) <==> MainFollows(before, s, a, next)
  {
    hide Freed, Pending, Decision;
  }

  lemma FollowsFetching(before: seq<Event>, s: State, a: MainEvent, next: MainEvent)
    requires Fetching(a) && MainEnabled(s, a)
    ensures StandsAt(ApplyMain(s, a).pc, next) <==> MainFollows(before, s, a, next)
  {
    hide Freed, Pending, Decision;
  }

  lemma FollowsStarting(before: seq<Event>, s: State, a: MainEvent, next: MainEvent)
    requires Starting(a) && MainEnabled(s, a)
    ensures StandsAt(ApplyMain(s, a).pc, next) <==> MainFollows(before, s, a, next)
  {
    hide Freed, Pending, Decision;
  }

  lemma FollowsSpawning(before: seq<Event>, s: State, a: MainEvent, next: MainEvent)
    requires Remembers(before, s.pc) && Spawns(a) && MainEnabled(s, a)
    ensures StandsAt(ApplyMain(s, a).pc, next) <==> MainFollows(before, s, a, next)
  {
    hide Freed, Pending, Decision;
  }

  lemma FollowsJoining(before: seq<Event>, s: State, a: MainEvent, next: MainEvent)
    requires Remembers(before, s.pc) && Joins(a) && MainEnabled(s, a)
    ensures StandsAt(ApplyMain(s, a).pc, next) <==> MainFollows(before, s, a, next)
  {
    hide Freed, Pending, Decision;
  }

  lemma FollowsOther(before: seq<Event>, s: State, a: MainEvent, next: MainEvent)
    requires !Opening(a) && !Fetching(a) && !Starting(a) && !Spawns(a) && !Joins(a) && MainEnabled(s, a)
    ensures StandsAt(ApplyMain(s, a).pc, next) <==> MainFollows(before, s, a, next)
  {
    hide Freed, Pending, Decision;
  }

  lemma StandsWhereItFollows(before: seq<Event>, s: State, a: MainEvent, next: MainEvent)
    requires Remembers(before, s.pc) && MainEnabled(s, a)
    ensures StandsAt(ApplyMain(s, a).pc, next) <==> MainFollows(before, s, a, next)
  {
    hide ApplyMain, MainFollows, StandsAt, MainEnabled, Remembers;
    if Opening(a) {
      FollowsOpening(before, s, a, next);
    } else if Fetching(a) {
      FollowsFetching(before, s, a, next);
    } else if Starting(a) {
      FollowsStarting(before, s, a, next);
    } else if Spawns(a) {
      FollowsSpawning(before, s, a, next);
    } else if Joins(a) {
      FollowsJoining(before, s, a, next);
    } else {
      FollowsOther(before, s, a, next);
    }
  }

  /** So does the main thread, which goes round between regular and panic mode. */
  lemma MainInOrder(before: seq<Event>, a: MainEvent, es: seq<Event>, next: MainEvent)
    requires Runs(INITIAL, before + [Main(a)] + es) && forall e :: e in es ==> !e.Main?
    requires Exec(INITIAL, before + [Main(a)] + es).pc != Destroyed
    ensures Runs(INITIAL, before)
    ensures var s' := Exec(INITIAL, before + [Main(a)] + es);
      Enabled(s', Main(next)) <==> MainFollows(before, Exec(INITIAL, before), a, next) && MainMayGoOn(s', next)
  {
    hide ApplyMain, MainFollows, MainEnabled, Remembers, MainMayGoOn, StandsAt;
    RunsParts(INITIAL, before + [Main(a)], es);
    RunsSplit(INITIAL, before, Main(a));
    var s := Exec(INITIAL, before);
    RunRemembers(before);
    MainIsNotIdle(s, a);
    MainPcStays(Apply(s, Main(a)), es);
    StandsWhereItFollows(before, s, a, next);
    NowhereWhenDestroyed(s, a);
    EnabledWhereItStands(Exec(Apply(s, Main(a)), es), next);
  }

  lemma NowhereWhenDestroyed(s: State, a: MainEvent)
    requires MainEnabled(s, a)
    ensures ApplyMain(s, a).pc != Destroyed
  {
    hide Freed;
  }

  lemma MainIsNotIdle(s: State, a: MainEvent)
    requires MainEnabled(s, a)
    ensures !ApplyMain(s, a).pc.Idle?
  {
    hide Freed;
  }

  // ---------- from outside ----------

  // The main thread has left its loop and joined the node threads.
  function Ended(es: seq<Event>): bool
    decreases |es|
  {
    if es == [] then false
    else if es[|es| - 1] == Main(JoinsDone) then Decision(es[..|es| - 1]) == Some(TestRunning)
    else Ended(es[..|es| - 1])
  }

  ghost predicate Stage(s: State, es: seq<Event>) {
    s.pc != Destroyed ==> (s.pc.Idle? <==> App(StartMonitor) !in es) && (s.pc.Exited? <==> Ended(es))
  }

  lemma MainStage(s: State, es: seq<Event>, e: MainEvent)
    requires s.pc != Destroyed && Stage(s, es) && Remembers(es, s.pc) && MainEnabled(s, e)
    ensures Stage(ApplyMain(s, e), es + [Main(e)])
  {
    hide Freed, Decision, Pending;
    assert (es + [Main(e)])[..|es|] == es;
    assert App(StartMonitor) in es + [Main(e)] <==> App(StartMonitor) in es;
  }

  lemma AppStage(s: State, es: seq<Event>, e: AppEvent)
    requires s.pc != Destroyed && Stage(s, es) && AppEnabled(s, e)
    ensures Stage(ApplyApp(s, e), es + [App(e)])
  {
    assert (es + [App(e)])[..|es|] == es;
    assert App(e) in es + [App(e)] && forall x :: x in es + [App(e)] <==> x in es || x == App(e);
  }

  lemma {:induction false} RunStage(es: seq<Event>)
    requires Runs(INITIAL, es)
    ensures Stage(Exec(INITIAL, es), es)
    decreases |es|
  {
    hide ApplyMain, ApplyNode, ApplyApp, MainEnabled, NodeEnabled, AppEnabled, Stage, Ended;
    if es == [] {
      FirstStage();
    } else {
      var k := |es| - 1;
      var before, e := es[..k], es[k];
      assert es == before + [e];
      RunsSplit(INITIAL, before, e);
      RunStage(before);
      var s := Exec(INITIAL, before);
      match e
      case App(a) => AppStage(s, before, a);
      case Main(m) => RunRemembers(before); MainStage(s, before, m);
      case Node(n, a) => NodeStage(s, before, n, a);
    }
  }

  lemma FirstStage()
    ensures Stage(INITIAL, [])
  {
  }

  lemma NodeStage(s: State, es: seq<Event>, n: Host, e: NodeEvent)
    requires Stage(s, es) && NodeEnabled(s, n, e)
    ensures Stage(ApplyNode(s, n, e), es + [Node(n, e)])
  {
    hide ApplyNode;
    NodeKeepsMain(s, n, e);
    assert (es + [Node(n, e)])[..|es|] == es;
    assert App(StartMonitor) in es + [Node(n, e)] <==> App(StartMonitor) in es;
  }

  /** What can be done from outside, after any run that has not destroyed the monitor: it can be started once, told to stop at any
      time, and destroyed before it was started or after its main thread has joined all others. */
  lemma FromOutside(es: seq<Event>)
    requires Runs(INITIAL, es) && Exec(INITIAL, es).pc != Destroyed
    ensures var s := Exec(INITIAL, es);
      && (Enabled(s, App(StartMonitor)) <==> App(StartMonitor) !in es)
      && Enabled(s, App(SignalRunning)) && Enabled(s, App(SignalStop))
      && (Enabled(s, App(Destroy)) <==> App(StartMonitor) !in es || Ended(es))
  {
    hide Exec, Ended;
    RunStage(es);
  }
}
