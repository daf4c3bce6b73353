/** The state behind refresh requests in terms of the events of a run alone: what is cached, what is requested, whether an update
    is under way, and where each waiter stands. */
module TopologyHistory {

  import opened Options
  import opened Hosts
  import opened TopologyUtil
  import opened TopologyRequests

  function Front(es: seq<Event>): seq<Event>
    requires es != []
  {
    es[..|es| - 1]
  }

  // The flag goes up with every request and down in the middle of every update.
  function Requested(es: seq<Event>): bool
    decreases |es|
  {
    if es == [] then false
    else if es[|es| - 1].Raise? then true
    else if es[|es| - 1].ClearRequest? then false
    else Requested(Front(es))
  }

  // How far the update has come that holds both mutexes, if there is one.
  function UnderWay(es: seq<Event>): Option<UpdateStage>
    decreases |es|
  {
    if es == [] then None
    else
      match es[|es| - 1]
      case BeginUpdate(_, _) => Some(Stored)
      case ClearRequest => Some(UpdateStage.Cleared)
      case BumpVersion => None
      case _ => UnderWay(Front(es))
  }

  // The topology stored last; whoever writes one back writes what it read itself.
  function CachedNow(es: seq<Event>): seq<HostInfo>
    decreases |es|, 0
  {
    if es == [] then []
    else
      match es[|es| - 1]
      case BeginUpdate(_, hosts) => hosts
      case StoreQueried(_, hosts) => hosts
      case WriteBack(id) => LastRead(Front(es), id)
      case StoreRefreshed(id) => LastRead(Front(es), id)
      case Expire => []
      case _ => CachedNow(Front(es))
  }

  // What a thread read last.
  function LastRead(es: seq<Event>, id: Id): seq<HostInfo>
    decreases |es|, 1
  {
    if es == [] then []
    else if es[|es| - 1] == ReadCache(id) || es[|es| - 1] == ReadForRefresh(id) then CachedNow(Front(es))
    else LastRead(Front(es), id)
  }

  // How many updates have completed since a thread sampled the version.
  function CompletedSince(es: seq<Event>, id: Id): nat
    decreases |es|
  {
    if es == [] || es[|es| - 1] == Sample(id) || es[|es| - 1] == ReadForRefresh(id) then 0
    else CompletedSince(Front(es), id) + (if es[|es| - 1].BumpVersion? then 1 else 0)
  }

  // What a thread is about to do, and whether it gave up waiting.
  datatype Place = Nowhere | ToRaise | ToCheck | ToRead(timedOut: bool) | HasRead(timedOut: bool)

  function Where(es: seq<Event>, id: Id): Place
    decreases |es|
  {
    if es == [] then Nowhere
    else
      var e, was := es[|es| - 1], Where(Front(es), id);
      if e == Sample(id) then ToRaise
      else if e == Raise(id, true) then ToCheck
      else if e == Raise(id, false) || e == CheckVersion(id, true) then ToRead(true)
      else if e == CheckVersion(id, false) then
        if CompletedSince(Front(es), id) % VERSIONS == 0 then ToCheck else ToRead(false)
      else if e == ReadCache(id) then HasRead(was.ToRead? && was.timedOut)
      else if e == ReadForRefresh(id) then HasRead(true)
      else was
  }

  // ---------- the state is what the history says ----------

  ghost predicate Stands(s: State, es: seq<Event>, id: Id) {
    match Where(es, id)
    case Nowhere => id !in s.waiters
    case ToRaise => At(s, id, Sampled)
    case ToCheck => At(s, id, Waiting)
    case ToRead(timedOut) => At(s, id, Leaving(timedOut))
    case HasRead(timedOut) => At(s, id, Holding(LastRead(es, id), timedOut))
  }

  ghost predicate Counts(s: State, es: seq<Event>, id: Id) {
    id in s.waiters ==>
      && s.updates == s.waiters[id].sampledAt + CompletedSince(es, id)
      && s.waiters[id].sampled == s.waiters[id].sampledAt % VERSIONS
  }

  ghost predicate Board(s: State, es: seq<Event>) {
    s.request == Requested(es) && s.updating == UnderWay(es) && s.cached == CachedNow(es) && s.updates == Completed(es)
  }

  // One more event, function by function.
  lemma WhereNext(es: seq<Event>, e: Event, id: Id)
    ensures Where(es + [e], id) ==
      if e == Sample(id) then ToRaise
      else if e == Raise(id, true) then ToCheck
      else if e == Raise(id, false) || e == CheckVersion(id, true) then ToRead(true)
      else if e == CheckVersion(id, false) then if CompletedSince(es, id) % VERSIONS == 0 then ToCheck else ToRead(false)
      else if e == ReadCache(id) then HasRead(Where(es, id).ToRead? && Where(es, id).timedOut)
      else if e == ReadForRefresh(id) then HasRead(true)
      else Where(es, id)
    ensures LastRead(es + [e], id) == if e == ReadCache(id) || e == ReadForRefresh(id) then CachedNow(es) else LastRead(es, id)
  {
    hide CompletedSince, CachedNow;
    assert Front(es + [e]) == es;
  }

  lemma CompletedSinceNext(es: seq<Event>, e: Event, id: Id)
    ensures CompletedSince(es + [e], id) ==
      if e == Sample(id) || e == ReadForRefresh(id) then 0 else CompletedSince(es, id) + (if e.BumpVersion? then 1 else 0)
  {
    assert Front(es + [e]) == es;
  }

  // The thread itself does something: the others only leave it where it is.
  predicate Own(e: Event, id: Id) {
    (e.Sample? || e.Raise? || e.CheckVersion? || e.ReadCache? || e.ReadForRefresh?) && e.id == id
  }

  lemma OthersLeaveWaiter(s: State, e: Event, id: Id)
    requires Enabled(s, e) && !Own(e, id)
    ensures id in Apply(s, e).waiters <==> id in s.waiters
    ensures id in s.waiters ==> Apply(s, e).waiters[id] == s.waiters[id]
  {
  }

  lemma OwnStep(s: State, e: Event, id: Id)
    requires Enabled(s, e) && Own(e, id)
    ensures id in Apply(s, e).waiters && Apply(s, e).updates == s.updates
    ensures var w := Apply(s, e).waiters[id];
      && (e.Sample? || e.ReadForRefresh? ==> id !in s.waiters && w.sampled == Version(s) && w.sampledAt == s.updates)
      && (!e.Sample? && !e.ReadForRefresh? ==>
            id in s.waiters && w.sampled == s.waiters[id].sampled && w.sampledAt == s.waiters[id].sampledAt)
  {
  }

  lemma StandsNext(s: State, es: seq<Event>, e: Event, id: Id)
    requires Enabled(s, e) && Stands(s, es, id) && Counts(s, es, id) && Board(s, es)
    ensures Stands(Apply(s, e), es + [e], id)
  {
    hide Where, LastRead, Completed, CompletedSince, CachedNow, Requested, UnderWay;
    WhereNext(es, e, id);
    if !Own(e, id) {
      OtherStandsNext(s, es, e, id);
    } else if e.CheckVersion? {
      CheckStandsNext(s, es, e, id);
    }
  }

  lemma OtherStandsNext(s: State, es: seq<Event>, e: Event, id: Id)
    requires Enabled(s, e) && Stands(s, es, id) && !Own(e, id)
    ensures Stands(Apply(s, e), es + [e], id)
  {
    hide Where, LastRead, CompletedSince, CachedNow, Apply, Enabled;
    WhereNext(es, e, id);
    OthersLeaveWaiter(s, e, id);
  }

  lemma CheckStandsNext(s: State, es: seq<Event>, e: Event, id: Id)
    requires Enabled(s, e) && Stands(s, es, id) && Counts(s, es, id) && e.CheckVersion? && e.id == id
    ensures Stands(Apply(s, e), es + [e], id)
  {
    hide Where, LastRead, CompletedSince, CachedNow;
    WhereNext(es, e, id);
    VersionsDiffer(s.waiters[id].sampledAt, CompletedSince(es, id));
  }

  lemma CountsNext(s: State, es: seq<Event>, e: Event, id: Id)
    requires Enabled(s, e) && Counts(s, es, id)
    ensures Counts(Apply(s, e), es + [e], id)
  {
    hide CompletedSince, Apply, Enabled;
    CompletedSinceNext(es, e, id);
    if Own(e, id) {
      OwnStep(s, e, id);
    } else {
      OthersLeaveWaiter(s, e, id);
      UpdatesNext(s, e);
    }
  }

  lemma UpdatesNext(s: State, e: Event)
    requires Enabled(s, e)
    ensures Apply(s, e).updates == s.updates + (if e.BumpVersion? then 1 else 0)
  {
  }

  lemma BoardNext(s: State, es: seq<Event>, e: Event)
    requires Enabled(s, e) && Board(s, es) && forall id :: Stands(s, es, id)
    ensures Board(Apply(s, e), es + [e])
  {
    assert Front(es + [e]) == es == (es + [e])[..|es|];
    if e.WriteBack? || e.StoreRefreshed? {
      assert Stands(s, es, e.id);
    }
  }

  /** After every run the flag, the version, the cache and every waiter are what the events of the run make them. */
  lemma {:induction false} StateFromHistory(es: seq<Event>)
    requires Runs(INITIAL, es)
    ensures Board(Exec(INITIAL, es), es)
    ensures forall id :: Stands(Exec(INITIAL, es), es, id) && Counts(Exec(INITIAL, es), es, id)
    decreases |es|
  {
    hide Board, Stands, Counts, Apply, Enabled;
    if es == [] {
      NothingHappened();
    } else {
      var before, e := Front(es), es[|es| - 1];
      assert es == before + [e];
      RunsParts(INITIAL, before, [e]);
      StateFromHistory(before);
      var s := Exec(INITIAL, before);
      BoardNext(s, before, e);
      forall id ensures Stands(Exec(INITIAL, es), es, id) && Counts(Exec(INITIAL, es), es, id) {
        StandsNext(s, before, e, id);
        CountsNext(s, before, e, id);
      }
    }
  }

  lemma NothingHappened()
    ensures Board(INITIAL, []) && forall id :: Stands(INITIAL, [], id) && Counts(INITIAL, [], id)
  {
  }

  // ---------- what may happen next ----------

  // A waiter raises its request and looks at the version under a mutex that an update holds.
  ghost predicate MayHappen(es: seq<Event>, e: Event) {
    match e
    case Sample(id) => Where(es, id).Nowhere?
    case Raise(id, _) => Where(es, id).ToRaise? && UnderWay(es) == None
    case CheckVersion(id, _) => Where(es, id).ToCheck? && UnderWay(es) == None
    case ReadCache(id) => Where(es, id).ToRead?
    case WriteBack(id) => Where(es, id).HasRead? && LastRead(es, id) != []
    case BeginUpdate(queried, hosts) => UnderWay(es) == None && IsVerified(queried, hosts)
    case ClearRequest => UnderWay(es) == Some(Stored)
    case BumpVersion => UnderWay(es) == Some(UpdateStage.Cleared)
    case ReadForRefresh(id) => Where(es, id).Nowhere?
    case StoreRefreshed(id) => Where(es, id).HasRead?
    case StoreQueried(queried, hosts) => hosts != [] && IsVerified(queried, hosts)
    case Expire => true
  }

  /** After every run, exactly those events can happen that the history of each thread and of the update under way allows. */
  lemma EnabledFromHistory(es: seq<Event>, e: Event)
    requires Runs(INITIAL, es)
    ensures Enabled(Exec(INITIAL, es), e) <==> MayHappen(es, e)
  {
    hide Where, UnderWay, LastRead, Exec, CachedNow, Requested;
    StateFromHistory(es);
    var s := Exec(INITIAL, es);
    match e
    case Sample(id) => assert Stands(s, es, id);
    case Raise(id, _) => assert Stands(s, es, id);
    case CheckVersion(id, _) => assert Stands(s, es, id);
    case ReadCache(id) => assert Stands(s, es, id);
    case WriteBack(id) => assert Stands(s, es, id);
    case ReadForRefresh(id) => assert Stands(s, es, id);
    case StoreRefreshed(id) => assert Stands(s, es, id);
    case _ =>
  }
}
