/** What was found out about the connections that are handed over: over every run the writer slot holds a connection that
    answered that it is the writer's, the reader slot one that answered that it is a reader's, and the monitor takes its
    main connection for the writer's only on such an answer. */
module TopologyRoles {

  import opened Options
  import opened TopologyConnections
  import opened TopologyRuns

  // Event i of a run: the thread of a node asks its connection for its role, and this is the answer.
  ghost predicate AskedAt(es: seq<Event>, i: nat, n: Host, writer: bool, d: Dbc) {
    && i < |es| && es[i] == Node(n, Probed(true, writer))
    && Runs(INITIAL, es[..i]) && Held(Exec(INITIAL, es[..i]), NodeConn(n)) == Some(d)
  }

  ghost predicate Found(es: seq<Event>, writer: bool, d: Dbc) { exists i: nat, n :: AskedAt(es, i, n, writer, d) }

  // Event i of a run: the main thread has opened a connection, finds no other, and is told that this is the writer's.
  ghost predicate InstalledAt(es: seq<Event>, i: nat, d: Dbc) {
    && i < |es| && es[i] == Main(OpenInstalled(true))
    && Runs(INITIAL, es[..i]) && Held(Exec(INITIAL, es[..i]), LocalConn) == Some(d)
    && Held(Exec(INITIAL, es[..i]), MainConn) == None
  }

  ghost predicate Installed(es: seq<Event>, d: Dbc) { exists i: nat :: InstalledAt(es, i, d) }

  // ---------- one event ----------

  ghost predicate In(o: Option<Dbc>, ds: iset<Dbc>) { o.Some? ==> o.value in ds }

  // The connections on their way to a slot, and those in one, are known for what they are.
  ghost predicate Known(s: State, writers: iset<Dbc>, readers: iset<Dbc>, installed: iset<Dbc>) {
    && In(s.writerSlot, writers) && In(s.readerSlot, readers)
    && (forall n :: n in s.threads ==> ThreadKnown(s.threads[n], writers, readers))
    && (s.isWriter && s.pc != Destroyed ==> s.main.Some? && (s.main.value in writers || s.main.value in installed))
  }

  ghost predicate ThreadKnown(t: NodeThread, writers: iset<Dbc>, readers: iset<Dbc>) {
    && (t.pc.AtWriter? ==> In(t.hdbc, writers))
    && (t.pc.AtReader? || t.pc.AtClaim? ==> In(t.hdbc, readers))
  }

  // What an event finds out.
  ghost predicate Answers(s: State, e: Event, writer: bool, d: Dbc) {
    e.Node? && e.act == Probed(true, writer) && Held(s, NodeConn(e.node)) == Some(d)
  }

  ghost predicate Installs(s: State, e: Event, d: Dbc) {
    e == Main(OpenInstalled(true)) && Held(s, LocalConn) == Some(d) && Held(s, MainConn) == None
  }

  ghost predicate Learns(
    s: State, e: Event, w: iset<Dbc>, r: iset<Dbc>, o: iset<Dbc>, w': iset<Dbc>, r': iset<Dbc>, o': iset<Dbc>)
  {
    && w <= w' && r <= r' && o <= o'
    && (forall d :: Answers(s, e, true, d) ==> d in w')
    && (forall d :: Answers(s, e, false, d) ==> d in r')
    && (forall d :: Installs(s, e, d) ==> d in o')
  }

  // A slot is filled only by the section that hands a connection over.
  lemma NodeFillsWriterSlot(s: State, n: Host, e: NodeEvent)
    requires NodeEnabled(s, n, e)
    ensures var s' := ApplyNode(s, n, e);
      s'.writerSlot == s.writerSlot || (s.threads[n].pc.AtWriter? && s'.writerSlot == s.threads[n].hdbc)
  {
    hide Freed;
  }

  lemma NodeFillsReaderSlot(s: State, n: Host, e: NodeEvent)
    requires NodeEnabled(s, n, e)
    ensures var s' := ApplyNode(s, n, e);
      s'.readerSlot == s.readerSlot || (s.threads[n].pc.AtClaim? && s'.readerSlot == s.threads[n].hdbc)
  {
    hide Freed;
  }

  lemma NodeLeavesMain(s: State, n: Host, e: NodeEvent)
    requires NodeEnabled(s, n, e)
    ensures var s' := ApplyNode(s, n, e); s'.isWriter == s.isWriter && s'.main == s.main && s'.pc == s.pc
  {
    hide Freed;
  }

  lemma ThreadStaysKnown(s: State, n: Host, e: NodeEvent, w: iset<Dbc>, r: iset<Dbc>, w': iset<Dbc>, r': iset<Dbc>)
    requires NodeEnabled(s, n, e) && ThreadKnown(s.threads[n], w, r) && w <= w' && r <= r'
    requires forall d :: Answers(s, Node(n, e), true, d) ==> d in w'
    requires forall d :: Answers(s, Node(n, e), false, d) ==> d in r'
    ensures n in ApplyNode(s, n, e).threads && ThreadKnown(ApplyNode(s, n, e).threads[n], w', r')
  {
    hide Freed;
    var t := s.threads[n];
    if e.Probed? && e.reachable && t.hdbc.Some? {
      assert Answers(s, Node(n, e), e.writer, t.hdbc.value);
    }
  }

  lemma NodeStaysKnown(
    s: State, n: Host, e: NodeEvent, w: iset<Dbc>, r: iset<Dbc>, o: iset<Dbc>, w': iset<Dbc>, r': iset<Dbc>, o': iset<Dbc>)
    requires Known(s, w, r, o) && NodeEnabled(s, n, e) && Learns(s, Node(n, e), w, r, o, w', r', o')
    ensures Known(ApplyNode(s, n, e), w', r', o')
  {
    hide ApplyNode;
    assert ThreadKnown(s.threads[n], w, r);
    NodeIsLocal(s, n, e);
    NodeFillsWriterSlot(s, n, e);
    NodeFillsReaderSlot(s, n, e);
    NodeLeavesMain(s, n, e);
    ThreadStaysKnown(s, n, e, w, r, w', r');
    forall k | k in ApplyNode(s, n, e).threads ensures ThreadKnown(ApplyNode(s, n, e).threads[k], w', r') {
      if k != n {
        assert ThreadKnown(s.threads[k], w, r);
      }
    }
  }

  // The main thread only empties slots; its threads stay as they are, are new, or are gone.
  lemma MainEmptiesWriterSlot(s: State, e: MainEvent)
    requires MainEnabled(s, e)
    ensures ApplyMain(s, e).writerSlot == s.writerSlot || ApplyMain(s, e).writerSlot == None
  {
    hide Freed;
  }

  lemma MainEmptiesReaderSlot(s: State, e: MainEvent)
    requires MainEnabled(s, e)
    ensures ApplyMain(s, e).readerSlot == s.readerSlot || ApplyMain(s, e).readerSlot == None
  {
    hide Freed;
  }

  lemma MainStartsThreads(s: State, e: MainEvent, k: Host)
    requires MainEnabled(s, e) && k in ApplyMain(s, e).threads
    ensures var t := ApplyMain(s, e).threads[k]; (k in s.threads && t == s.threads[k]) || t.pc.Top?
  {
    hide Freed;
  }

  lemma MainTakesWriter(s: State, e: MainEvent)
    requires MainEnabled(s, e) && ApplyMain(s, e).isWriter && (s.isWriter ==> s.main.Some?)
    ensures var main := ApplyMain(s, e).main;
      || (s.isWriter && main == s.main)
      || (s.writerSlot.Some? && main == s.writerSlot)
      || (main.Some? && Installs(s, Main(e), main.value))
  {
    hide Freed;
  }

  lemma MainStaysKnown(
    s: State, e: MainEvent, w: iset<Dbc>, r: iset<Dbc>, o: iset<Dbc>, w': iset<Dbc>, r': iset<Dbc>, o': iset<Dbc>)
    requires Known(s, w, r, o) && s.pc != Destroyed && MainEnabled(s, e) && Learns(s, Main(e), w, r, o, w', r', o')
    ensures Known(ApplyMain(s, e), w', r', o')
  {
    hide ApplyMain, MainEnabled;
    MainEmptiesWriterSlot(s, e);
    MainEmptiesReaderSlot(s, e);
    if ApplyMain(s, e).isWriter {
      MainTakesWriter(s, e);
    }
    forall k | k in ApplyMain(s, e).threads ensures ThreadKnown(ApplyMain(s, e).threads[k], w', r') {
      MainStartsThreads(s, e, k);
      if k in s.threads {
        assert ThreadKnown(s.threads[k], w, r);
      }
    }
  }

  lemma AppStaysKnown(s: State, e: AppEvent, w: iset<Dbc>, r: iset<Dbc>, o: iset<Dbc>, w': iset<Dbc>, r': iset<Dbc>, o': iset<Dbc>)
    requires Known(s, w, r, o) && s.pc != Destroyed && AppEnabled(s, e) && w <= w' && r <= r' && o <= o'
    ensures Known(ApplyApp(s, e), w', r', o')
  {
    forall k | k in s.threads ensures ThreadKnown(s.threads[k], w', r') {
      assert ThreadKnown(s.threads[k], w, r);
    }
  }

  lemma StepStaysKnown(
    s: State, e: Event, w: iset<Dbc>, r: iset<Dbc>, o: iset<Dbc>, w': iset<Dbc>, r': iset<Dbc>, o': iset<Dbc>)
    requires Known(s, w, r, o) && Enabled(s, e) && Learns(s, e, w, r, o, w', r', o')
    ensures Known(Apply(s, e), w', r', o')
  {
    hide ApplyApp, ApplyMain, ApplyNode;
    match e
    case App(a) => AppStaysKnown(s, a, w, r, o, w', r', o');
    case Main(m) => MainStaysKnown(s, m, w, r, o, w', r', o');
    case Node(n, a) => NodeStaysKnown(s, n, a, w, r, o, w', r', o');
  }

  // ---------- whole runs ----------

  ghost function FoundSet(es: seq<Event>, writer: bool): iset<Dbc> { iset d | Found(es, writer, d) }

  ghost function InstalledSet(es: seq<Event>): iset<Dbc> { iset d | Installed(es, d) }

  lemma RunLearns(es: seq<Event>, e: Event)
    requires Runs(INITIAL, es)
    ensures Learns(Exec(INITIAL, es), e, FoundSet(es, true), FoundSet(es, false), InstalledSet(es),
                   FoundSet(es + [e], true), FoundSet(es + [e], false), InstalledSet(es + [e]))
  {
    hide Exec;
    var longer := es + [e];
    assert longer[..|es|] == es;
    forall writer, d | Found(es, writer, d) ensures Found(longer, writer, d) {
      var i: nat, n :| AskedAt(es, i, n, writer, d);
      assert longer[..i] == es[..i];
      assert AskedAt(longer, i, n, writer, d);
    }
    forall d | Installed(es, d) ensures Installed(longer, d) {
      var i: nat :| InstalledAt(es, i, d);
      assert longer[..i] == es[..i];
      assert InstalledAt(longer, i, d);
    }
    forall writer, d | Answers(Exec(INITIAL, es), e, writer, d) ensures Found(longer, writer, d) {
      assert AskedAt(longer, |es|, e.node, writer, d);
    }
    forall d | Installs(Exec(INITIAL, es), e, d) ensures Installed(longer, d) {
      assert InstalledAt(longer, |es|, d);
    }
  }

  lemma {:induction false} RunStaysKnown(es: seq<Event>)
    requires Runs(INITIAL, es)
    ensures Known(Exec(INITIAL, es), FoundSet(es, true), FoundSet(es, false), InstalledSet(es))
    decreases |es|
  {
    hide Known, Learns;
    if es == [] {
      NothingToKnow();
    } else {
      var k := |es| - 1;
      assert es == es[..k] + [es[k]];
      RunsSplit(INITIAL, es[..k], es[k]);
      RunStaysKnown(es[..k]);
      RunLearns(es[..k], es[k]);
      StepStaysKnown(Exec(INITIAL, es[..k]), es[k], FoundSet(es[..k], true), FoundSet(es[..k], false), InstalledSet(es[..k]),
                     FoundSet(es, true), FoundSet(es, false), InstalledSet(es));
    }
  }

  lemma NothingToKnow()
    ensures Known(INITIAL, FoundSet([], true), FoundSet([], false), InstalledSet([]))
  {
  }

  /** Over every run the connection in the writer slot was asked for its role by the thread that held it, and answered that
      it is the writer's. */
  lemma WriterSlotWasFound(es: seq<Event>, d: Dbc)
    requires Runs(INITIAL, es) && Exec(INITIAL, es).writerSlot == Some(d)
    ensures exists i: nat, n :: AskedAt(es, i, n, true, d)
  {
    RunStaysKnown(es);
    assert Found(es, true, d);
  }

  /** The connection in the reader slot answered that it is a reader's. */
  lemma ReaderSlotWasFound(es: seq<Event>, d: Dbc)
    requires Runs(INITIAL, es) && Exec(INITIAL, es).readerSlot == Some(d)
    ensures exists i: nat, n :: AskedAt(es, i, n, false, d)
  {
    RunStaysKnown(es);
    assert Found(es, false, d);
  }

  /** When the monitor polls and the connection in the writer slot still answers, exactly that connection becomes the main
      one and is taken for the writer's; it did answer so. Without an answer, or without one in the slot, nothing changes
      hands. */
  lemma AdoptsTheWriter(es: seq<Event>, verified: bool, latest: seq<Host>)
    requires Runs(INITIAL, es) && Enabled(Exec(INITIAL, es), Main(Polled(verified, latest)))
    ensures var s, s' := Exec(INITIAL, es), Apply(Exec(INITIAL, es), Main(Polled(verified, latest)));
      if verified && Held(s, WriterConn).Some?
      then s'.isWriter && Held(s', MainConn) == Held(s, WriterConn) && Held(s', WriterConn) == None
        && exists i: nat, n :: AskedAt(es, i, n, true, Held(s, WriterConn).value)
      else s'.isWriter == s.isWriter && forall h :: Held(s', h) == Held(s, h)
  {
    var s := Exec(INITIAL, es);
    if verified && s.writerSlot.Some? {
      WriterSlotWasFound(es, s.writerSlot.value);
    }
  }

  /** While the monitor exists, whenever it takes its main connection for the writer's, that very connection answered so: to the node thread
      that held it, or to the main thread that opened it. */
  lemma WriterFlagIsEarned(es: seq<Event>)
    requires Runs(INITIAL, es) && Exec(INITIAL, es).isWriter && Exec(INITIAL, es).pc != Destroyed
    ensures var s := Exec(INITIAL, es);
      s.main.Some? && ((exists i: nat, n :: AskedAt(es, i, n, true, s.main.value)) || exists i: nat :: InstalledAt(es, i, s.main.value))
  {
    RunStaysKnown(es);
    var d := Exec(INITIAL, es).main.value;
    assert Found(es, true, d) || Installed(es, d);
  }
}
