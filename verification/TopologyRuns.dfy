/** Whole runs of the hand-over protocol: what holds after every interleaving, and the one use of a connection that no
    mutex protects. */
module TopologyRuns {

  import opened Options
  import opened TopologyConnections

  predicate Runs(s: State, es: seq<Event>)
    decreases |es|
  {
    es == [] || (Enabled(s, es[0]) && Runs(Apply(s, es[0]), es[1..]))
  }

  function Exec(s: State, es: seq<Event>): State
    requires Runs(s, es)
    decreases |es|
  {
    if es == [] then s else Exec(Apply(s, es[0]), es[1..])
  }

  lemma {:induction false} RunKeepsInvariant(s: State, es: seq<Event>)
    requires Invariant(s) && Runs(s, es)
    ensures Invariant(Exec(s, es))
    decreases |es|
  {
    if es != [] {
      StepKeepsInvariant(s, es[0]);
      RunKeepsInvariant(Apply(s, es[0]), es[1..]);
    }
  }

  /** Over every interleaving, while the monitor exists, its live connections are exactly the disjoint union
      of the main connection, the two slots, the connection being opened and those of the node threads. */
  lemma ConnectionsConserved(es: seq<Event>)
    requires Runs(INITIAL, es) && Exec(INITIAL, es).pc != Destroyed
    ensures var s := Exec(INITIAL, es);
      && (forall d :: d in s.live <==> exists h :: Holds(s, h, d))
      && (forall h, h', d :: Holds(s, h, d) && Holds(s, h', d) ==> h == h')
  {
    RunKeepsInvariant(INITIAL, es);
  }

  /** is_writer_connection_ implies a connection whenever hdbc_mutex_ is free, and HandleRegularMode never
      finds a node thread to join. */
  lemma ModeSafety(es: seq<Event>)
    requires Runs(INITIAL, es) && Exec(INITIAL, es).pc != Destroyed
    ensures var s := Exec(INITIAL, es);
      && (s.isWriter ==> s.main.Some?)
      && (s.pc.RegularEntry? || s.pc.RegularFetch? ==> s.threads == map[])
  {
    RunKeepsInvariant(INITIAL, es);
  }

  /** The fetch of regular mode is always safe: it queries through the main connection, which is live until the mutex
      is released, or finds none and passes the null handle. */
  lemma RegularQuerySafe(es: seq<Event>)
    requires Runs(INITIAL, es) && Exec(INITIAL, es).pc.RegularQuery?
    ensures var s := Exec(INITIAL, es);
      s.pc.handle == s.main && (s.pc.handle.Some? ==> s.pc.handle.value in s.live)
  {
    RunKeepsInvariant(INITIAL, es);
    HeldIsLive(Exec(INITIAL, es), MainConn);
  }

  /** A node thread about to read the reader slot finds it filled, and the connection a node thread queries
      through is live and still the one in the slot, however many threads share it. */
  lemma ReaderConnectionSafe(es: seq<Event>, n: Host)
    requires Runs(INITIAL, es) && Exec(INITIAL, es).pc != Destroyed
    requires n in Exec(INITIAL, es).threads
    ensures var s := Exec(INITIAL, es);
      && (s.threads[n].pc.AtFetch? ==> s.readerSlot.Some?)
      && (s.threads[n].pc.AtQuery? ==> s.threads[n].pc.used in s.live && s.readerSlot == Some(s.threads[n].pc.used))
  {
    RunKeepsInvariant(INITIAL, es);
    var s := Exec(INITIAL, es);
    assert ThreadProtected(s.threads[n], s.readerSlot);
    if s.threads[n].pc.AtQuery? {
      assert Holds(s, ReaderConn, s.threads[n].pc.used);
    }
  }

  // ---------- the one use of a connection that is not protected ----------

  // OpenAnyConnGetHosts dereferences main_hdbc_ and queries through it after releasing hdbc_mutex_. The connection has
  // just been set; a concurrent ForceRefresh is the only thing that can free it.

  lemma OpenFetchStartsConnected(s: State, e: Event)
    requires Enabled(s, e) && !s.pc.OpenFetch? && Apply(s, e).pc.OpenFetch?
    ensures Apply(s, e).main.Some?
  {
    match e
    case App(_) =>
    case Main(m) => MainReachesOpenFetch(s, m);
    case Node(n, a) => NodeKeepsMain(s, n, a);
  }

  lemma MainReachesOpenFetch(s: State, e: MainEvent)
    requires MainEnabled(s, e) && ApplyMain(s, e).pc.OpenFetch?
    ensures ApplyMain(s, e).main.Some?
  {
  }

  lemma NodeKeepsMain(s: State, n: Host, e: NodeEvent)
    requires NodeEnabled(s, n, e)
    ensures var s' := ApplyNode(s, n, e); s'.pc == s.pc && s'.main == s.main
    ensures var s' := ApplyNode(s, n, e); s'.next >= s.next && forall d :: d in s'.live ==> d in s.live || d >= s.next
  {
  }

  // The main thread has not come back from the query yet.
  predicate InWindow(s: State) { s.pc.OpenFetch? || s.pc.OpenQuery? }

  ghost predicate StaysInWindow(s: State, es: seq<Event>)
    requires Runs(s, es)
    decreases |es|
  {
    InWindow(s) && (es == [] || StaysInWindow(Apply(s, es[0]), es[1..]))
  }

  // Dereferencing now finds a connection; querying now goes through a live one.
  predicate UsesLiveConnection(s: State)
    requires InWindow(s)
  {
    if s.pc.OpenFetch? then s.main.Some? else s.pc.used in s.live
  }

  // The connection in use is the main one, or it is gone for good.
  ghost predicate Undropped(s: State)
    requires InWindow(s)
  {
    s.main.Some? && (s.pc.OpenQuery? ==> s.main == Some(s.pc.used))
  }

  ghost predicate Dropped(s: State)
    requires InWindow(s)
  {
    s.main.None? && (s.pc.OpenQuery? ==> s.pc.used !in s.live && s.pc.used < s.next)
  }

  lemma UndroppedOrDropped(s: State)
    requires Invariant(s) && InWindow(s) && (Undropped(s) || Dropped(s))
    ensures UsesLiveConnection(s) <==> Undropped(s)
  {
    HeldIsLive(s, MainConn);
  }

  lemma WindowStep(s: State, e: Event)
    requires Invariant(s) && Enabled(s, e) && InWindow(s) && InWindow(Apply(s, e)) && (Undropped(s) || Dropped(s))
    ensures Undropped(Apply(s, e)) <==> Undropped(s) && e != App(DropMain)
    ensures Undropped(Apply(s, e)) || Dropped(Apply(s, e))
  {
    HeldIsLive(s, MainConn);
    match e
    case App(_) =>
    case Main(_) =>
    case Node(n, a) => NodeKeepsMain(s, n, a);
  }

  lemma {:induction false} WindowDropped(s: State, es: seq<Event>)
    requires Invariant(s) && Runs(s, es) && StaysInWindow(s, es) && (Undropped(s) || Dropped(s))
    ensures InWindow(Exec(s, es)) && (Undropped(Exec(s, es)) || Dropped(Exec(s, es))) && Invariant(Exec(s, es))
    ensures Undropped(Exec(s, es)) <==> Undropped(s) && App(DropMain) !in es
    decreases |es|
  {
    hide Invariant, Undropped, Dropped, InWindow;
    if es != [] {
      StepKeepsInvariant(s, es[0]);
      assert es == [es[0]] + es[1..];
      StaysInWindowFirst(s, es);
      WindowStep(s, es[0]);
      WindowDropped(Apply(s, es[0]), es[1..]);
    }
  }

  lemma StaysInWindowFirst(s: State, es: seq<Event>)
    requires Runs(s, es) && StaysInWindow(s, es) && es != []
    ensures InWindow(s) && InWindow(Apply(s, es[0]))
  {
  }

  /** From the arrival of the main thread until its query ends, on every run: the dereference finds a connection and the
      query goes through a live one if and only if no ForceRefresh has dropped the connection since the arrival. */
  lemma OpenQuerySafeUnlessDropped(before: seq<Event>, arrival: Event, es: seq<Event>)
    requires Runs(INITIAL, before) && Enabled(Exec(INITIAL, before), arrival)
    requires !Exec(INITIAL, before).pc.OpenFetch? && Apply(Exec(INITIAL, before), arrival).pc.OpenFetch?
    requires Runs(Apply(Exec(INITIAL, before), arrival), es)
    requires StaysInWindow(Apply(Exec(INITIAL, before), arrival), es)
    ensures var s := Exec(Apply(Exec(INITIAL, before), arrival), es);
      InWindow(s) && (UsesLiveConnection(s) <==> App(DropMain) !in es)
  {
    var s0 := Exec(INITIAL, before);
    var s := Apply(s0, arrival);
    RunKeepsInvariant(INITIAL, before);
    StepKeepsInvariant(s0, arrival);
    OpenFetchStartsConnected(s0, arrival);
    WindowDropped(s, es);
    UndroppedOrDropped(Exec(s, es));
  }

  lemma Extend(es: seq<Event>, e: Event) returns (longer: seq<Event>)
    requires Runs(INITIAL, es) && Enabled(Exec(INITIAL, es), e)
    ensures Runs(INITIAL, longer) && Exec(INITIAL, longer) == Apply(Exec(INITIAL, es), e)
  {
    longer := es + [e];
    RunsConcat(INITIAL, es, [e]);
  }

  lemma {:induction false} RunsConcat(s: State, es: seq<Event>, more: seq<Event>)
    requires Runs(s, es) && Runs(Exec(s, es), more)
    ensures Runs(s, es + more) && Exec(s, es + more) == Exec(Exec(s, es), more)
    decreases |es|
  {
    if es == [] {
      assert es + more == more;
    } else {
      assert (es + more)[1..] == es[1..] + more;
      RunsConcat(Apply(s, es[0]), es[1..], more);
    }
  }

  lemma {:induction false} RunsParts(s: State, es: seq<Event>, more: seq<Event>)
    requires Runs(s, es + more)
    ensures Runs(s, es) && Runs(Exec(s, es), more) && Exec(s, es + more) == Exec(Exec(s, es), more)
    decreases |es|
  {
    if es == [] {
      assert es + more == more;
    } else {
      assert (es + more)[1..] == es[1..] + more;
      RunsParts(Apply(s, es[0]), es[1..], more);
    }
  }

  lemma RunsBefore(es: seq<Event>, k: nat)
    requires Runs(INITIAL, es) && k <= |es|
    ensures Runs(INITIAL, es[..k])
  {
    assert es == es[..k] + es[k..];
    RunsParts(INITIAL, es[..k], es[k..]);
  }

  lemma RunsSplit(s: State, es: seq<Event>, e: Event)
    requires Runs(s, es + [e])
    ensures Runs(s, es) && Enabled(Exec(s, es), e) && Exec(s, es + [e]) == Apply(Exec(s, es), e)
  {
    RunsParts(s, es, [e]);
  }

  lemma ReachOpenTest() returns (es: seq<Event>)
    ensures Runs(INITIAL, es) && Exec(INITIAL, es) == INITIAL.(running := true, pc := OpenTest)
  {
    es := Extend([], App(StartMonitor));
    es := Extend(es, Main(TestRunning));
    es := Extend(es, Main(ChooseHandler));
    es := Extend(es, Main(InitFreeWriter));
    es := Extend(es, Main(InitFreeReader));
    es := Extend(es, Main(InitCached([])));
  }

  lemma ReachOpenFetch() returns (es: seq<Event>)
    ensures Runs(INITIAL, es) && Exec(INITIAL, es) == State({0}, 1, Some(0), false, None, None, map[], false, true, OpenFetch)
  {
    es := ReachOpenTest();
    es := Extend(es, Main(OpenTested));
    es := Extend(es, Main(OpenConnected(true)));
    es := Extend(es, Main(OpenInstalled(false)));
  }

  /** The unsafe cases occur, with one ForceRefresh in the window: before the dereference, which then finds nothing ... */
  lemma OpenFetchCanFindNothing()
    ensures exists es :: Runs(INITIAL, es) && Exec(INITIAL, es).pc.OpenFetch? && Exec(INITIAL, es).main.None?
  {
    var es := ReachOpenFetch();
    es := Extend(es, App(DropMain));
  }

  /** ... and after it, during the query, which then goes through a freed connection. */
  lemma OpenQueryCanUseFreed()
    ensures exists es :: Runs(INITIAL, es) && Exec(INITIAL, es).pc.OpenQuery? && Exec(INITIAL, es).pc.used !in Exec(INITIAL, es).live
  {
    var es := ReachOpenFetch();
    es := Extend(es, Main(OpenDereferenced));
    es := Extend(es, App(DropMain));
  }
}
