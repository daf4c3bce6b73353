/** The books of the hand-over protocol: which event frees which connection, and that over a whole run every connection
    handed out is freed at most once, and exactly once when the monitor is destroyed. */
module TopologyReleases {

  import opened Options
  import opened TopologyConnections
  import opened TopologyRuns

  // The handles that an event passes to DisconnectAndFree. The destructor frees the main connection and then
  // everything still listed in the environment.
  function Releases(s: State, e: Event): set<Dbc>
    requires Enabled(s, e)
  {
    match e
    case App(a) => if a.DropMain? then Handle(s.main) else if a.Destroy? then s.live + Handle(s.main) else {}
    case Main(m) => MainReleases(s, m)
    case Node(n, a) =>
      if a.Close? || (a.Probed? && !a.reachable) || (a.Connected? && !a.ok) || (a.HandleWriter? && s.writerSlot.Some?)
      then Handle(s.threads[n].hdbc) else {}
  }

  function MainReleases(s: State, e: MainEvent): set<Dbc>
    requires MainEnabled(s, e)
  {
    match e
    case RegularDropped | OpenDropped => Handle(s.main)
    case InitFreeWriter => Handle(s.writerSlot)
    case InitFreeReader => Handle(s.readerSlot)
    case OpenConnected(connected) => if connected then {} else {s.pc.local}
    case OpenInstalled(_) => if s.main.Some? then {s.pc.local} else {}
    case Polled(verified, _) => if s.writerSlot.Some? && verified then Handle(s.main) else {}
    case JoinNode(n) => if s.threads[n].readerUpdates then {} else Handle(s.threads[n].hdbc)
    case _ => {}
  }

  // The books of a step: what is live afterwards is what was live or newly handed out, without what was freed.
  ghost predicate Balanced(s: State, freed: set<Dbc>, s': State) {
    && s.next <= s'.next
    && freed <= s.live
    && (forall d :: d in s'.live <==> (d in s.live || s.next <= d < s'.next) && d !in freed)
  }

  lemma MainAccounts(s: State, e: MainEvent)
    requires Invariant(s) && s.pc != Destroyed && MainEnabled(s, e)
    ensures Balanced(s, MainReleases(s, e), ApplyMain(s, e))
  {
    hide Balanced, MainReleases, ApplyMain, Conserved;
    HeldIsLive(s, MainConn);
    HeldIsLive(s, WriterConn);
    HeldIsLive(s, ReaderConn);
    HeldIsLive(s, LocalConn);
    if e.JoinNode? {
      HeldIsLive(s, NodeConn(e.node));
    }
    MainBalances(s, e);
  }

  lemma MainBalances(s: State, e: MainEvent)
    requires Fresh(s) && MainEnabled(s, e)
    requires Handle(s.main) <= s.live && Handle(s.writerSlot) <= s.live && Handle(s.readerSlot) <= s.live
    requires Handle(Held(s, LocalConn)) <= s.live && (e.JoinNode? ==> Handle(s.threads[e.node].hdbc) <= s.live)
    ensures Balanced(s, MainReleases(s, e), ApplyMain(s, e))
  {
    hide Balanced;
    var s' := ApplyMain(s, e);
    match e
    case RegularDropped | OpenDropped => FreeingBalances(s, s.main, s');
    case InitFreeWriter => FreeingBalances(s, s.writerSlot, s');
    case InitFreeReader => FreeingBalances(s, s.readerSlot, s');
    case OpenTested | OpenConnected(_) | OpenInstalled(_) => OpeningBalances(s, e);
    case AddNode => if s'.next == s.next { QuietBalances(s, s'); } else { AllocatingBalances(s, s'); }
    case Polled(verified, _) =>
      if s.writerSlot.Some? && verified { FreeingBalances(s, s.main, s'); } else { QuietBalances(s, s'); }
    case JoinNode(n) =>
      if s.threads[n].readerUpdates { QuietBalances(s, s'); } else { FreeingBalances(s, s.threads[n].hdbc, s'); }
    case _ => QuietBalances(s, s');
  }

  lemma OpeningBalances(s: State, e: MainEvent)
    requires Fresh(s) && MainEnabled(s, e) && (e.OpenTested? || e.OpenConnected? || e.OpenInstalled?)
    requires Handle(Held(s, LocalConn)) <= s.live
    ensures Balanced(s, MainReleases(s, e), ApplyMain(s, e))
  {
    hide Balanced;
    var s' := ApplyMain(s, e);
    match e
    case OpenTested => if s.main.Some? { QuietBalances(s, s'); } else { AllocatingBalances(s, s'); }
    case OpenConnected(connected) =>
      if connected { QuietBalances(s, s'); } else { FreeingBalances(s, Some(s.pc.local), s'); }
    case OpenInstalled(_) => if s.main.None? { QuietBalances(s, s'); } else { FreeingBalances(s, Some(s.pc.local), s'); }
  }

  lemma QuietBalances(s: State, s': State)
    requires Fresh(s) && s'.live == s.live && s'.next == s.next
    ensures Balanced(s, {}, s')
  {
  }

  lemma FreeingBalances(s: State, handle: Option<Dbc>, s': State)
    requires Fresh(s) && Handle(handle) <= s.live && s'.live == Freed(s.live, handle) && s'.next == s.next
    ensures Balanced(s, Handle(handle), s')
  {
  }

  lemma AllocatingBalances(s: State, s': State)
    requires Fresh(s) && s'.live == s.live + {s.next} && s'.next == s.next + 1
    ensures Balanced(s, {}, s')
  {
  }

  lemma NodeAccounts(s: State, n: Host, e: NodeEvent)
    requires Invariant(s) && s.pc != Destroyed && NodeEnabled(s, n, e)
    ensures Balanced(s, Releases(s, Node(n, e)), ApplyNode(s, n, e))
  {
    HeldIsLive(s, NodeConn(n));
  }

  // An event frees live handles only, and hands out handles never handed out before.
  lemma StepAccounts(s: State, e: Event)
    requires Invariant(s) && Enabled(s, e)
    ensures Balanced(s, Releases(s, e), Apply(s, e))
  {
    match e
    case App(_) => HeldIsLive(s, MainConn);
    case Main(m) => MainAccounts(s, m);
    case Node(n, a) => NodeAccounts(s, n, a);
  }

  // What the events of a run free, one set per event.
  function Freeings(s: State, es: seq<Event>): seq<set<Dbc>>
    requires Runs(s, es)
    ensures |Freeings(s, es)| == |es|
    decreases |es|
  {
    if es == [] then [] else [Releases(s, es[0])] + Freeings(Apply(s, es[0]), es[1..])
  }

  ghost predicate FreedAt(fs: seq<set<Dbc>>, i: nat, d: Dbc) { i < |fs| && d in fs[i] }

  ghost predicate Available(s: State, s': State, d: Dbc) { d in s.live || s.next <= d < s'.next }

  ghost predicate Accounted(s: State, fs: seq<set<Dbc>>, s': State) {
    && s.next <= s'.next
    && (forall i, j, d :: FreedAt(fs, i, d) && FreedAt(fs, j, d) ==> i == j)
    && (forall i, d :: FreedAt(fs, i, d) ==> Available(s, s', d) && d !in s'.live)
    && (forall d :: d in s'.live ==> Available(s, s', d))
    && (forall d :: Available(s, s', d) && d !in s'.live ==> exists i :: FreedAt(fs, i, d))
  }

  lemma Prepend(s: State, freed: set<Dbc>, s1: State, rest: seq<set<Dbc>>, s': State)
    requires Fresh(s) && Balanced(s, freed, s1) && Accounted(s1, rest, s')
    ensures Accounted(s, [freed] + rest, s')
  {
    var fs := [freed] + rest;
    assert forall d :: FreedAt(fs, 0, d) <==> d in freed;
    assert forall i: nat, d :: FreedAt(fs, i + 1, d) <==> FreedAt(rest, i, d);
    forall i: nat, d | FreedAt(fs, i, d) ensures Available(s, s', d) && d !in s'.live {
      if i > 0 {
        assert FreedAt(rest, i - 1, d);
        assert Available(s1, s', d);
      } else {
        assert !Available(s1, s', d);
      }
    }
    forall i: nat, j: nat, d | FreedAt(fs, i, d) && FreedAt(fs, j, d) ensures i == j {
      if i > 0 { assert FreedAt(rest, i - 1, d) && Available(s1, s', d); }
      if j > 0 { assert FreedAt(rest, j - 1, d) && Available(s1, s', d); }
    }
    forall d | Available(s, s', d) && d !in s'.live ensures exists i :: FreedAt(fs, i, d) {
      if d in freed {
        assert FreedAt(fs, 0, d);
      } else {
        assert Available(s1, s', d);
        var i: nat :| FreedAt(rest, i, d);
        assert FreedAt(fs, i + 1, d);
      }
    }
  }

  lemma {:induction false} RunAccounts(s: State, es: seq<Event>)
    requires Invariant(s) && Fresh(s) && Runs(s, es)
    ensures Accounted(s, Freeings(s, es), Exec(s, es))
    decreases |es|
  {
    if es != [] {
      var s1 := Apply(s, es[0]);
      StepKeepsInvariant(s, es[0]);
      StepAccounts(s, es[0]);
      RunAccounts(s1, es[1..]);
      Prepend(s, Releases(s, es[0]), s1, Freeings(s1, es[1..]), Exec(s, es));
    }
  }

  // Starting with nothing: no handle is freed by two events, those handed out are those live or freed, none is both.
  ghost predicate AllAccounted(fs: seq<set<Dbc>>, s: State) {
    && (forall i, j, d :: FreedAt(fs, i, d) && FreedAt(fs, j, d) ==> i == j)
    && (forall d: Dbc :: d < s.next <==> d in s.live || exists i :: FreedAt(fs, i, d))
    && (forall i, d :: FreedAt(fs, i, d) ==> d !in s.live)
  }

  /** Over a whole run no connection is freed twice, and the connections handed out so far are exactly those
      still live and those freed; once the monitor is destroyed every one of them has been freed. */
  lemma FreedExactlyOnce(es: seq<Event>)
    requires Runs(INITIAL, es)
    ensures AllAccounted(Freeings(INITIAL, es), Exec(INITIAL, es))
    ensures Exec(INITIAL, es).pc.Destroyed? ==> Exec(INITIAL, es).live == {}
  {
    hide Accounted, AllAccounted, Exec, Freeings;
    RunAccounts(INITIAL, es);
    DestroyedIsEmpty(INITIAL, es);
    AccountsFromScratch(Freeings(INITIAL, es), Exec(INITIAL, es));
  }

  lemma AccountsFromScratch(fs: seq<set<Dbc>>, s: State)
    requires Accounted(INITIAL, fs, s)
    ensures AllAccounted(fs, s)
  {
    forall d: Dbc ensures d < s.next <==> d in s.live || exists i :: FreedAt(fs, i, d) {
      assert Available(INITIAL, s, d) <==> d < s.next;
    }
  }

  lemma {:induction false} DestroyedIsEmpty(s: State, es: seq<Event>)
    requires Runs(s, es) && (s.pc.Destroyed? ==> s.live == {})
    ensures Exec(s, es).pc.Destroyed? ==> Exec(s, es).live == {}
    decreases |es|
  {
    if es != [] {
      DestroyedIsEmpty(Apply(s, es[0]), es[1..]);
    }
  }
}
