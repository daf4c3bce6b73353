/**
 * What the calls of a run give back to the underlying driver, and what a disconnect without a driver forgets: one set
 * per call, said in terms of who holds what before the call.
 */
module HandleReleases {

  import opened Options
  import opened HandleTree
  import opened HandleDeletion
  import opened HandleChanges
  import opened HandleRuns

  // ---------- one call ----------

  // The holders that a call takes the underlying handle from.
  predicate Targets(h: Heap, c: Call, r: Ref) {
    match c
    case FreeStmt(s) => r == StmtRef(s)
    case FreeDesc(x) => r == DescRef(x)
    case Disconnect(d, _) => DbcOf(h, r) == d
    case SqlDisconnect(d) => r.StmtRef? && DbcOf(h, r) == d
    case FreeConnect(d) => DbcOf(h, r) == d
    case FreeEnv(e) => DbcOf(h, r) in h.dbcs && h.dbcs[DbcOf(h, r)].env == e
    case _ => false
  }

  ghost predicate LetsGoOf(h: Heap, c: Call, u: Underlying) { exists r :: Targets(h, c, r) && Wraps(h, r, u) }

  // A disconnect through a helper that has no driver to call.
  predicate Unloaded(c: Call) { c.Disconnect? && !c.loaded }

  // What a call passes to SQLFreeHandle, and what it forgets instead.
  ghost function Releases(h: Heap, c: Call): set<Underlying> {
    set u | u in h.issued && !Unloaded(c) && LetsGoOf(h, c, u)
  }

  ghost function Forgets(h: Heap, c: Call): set<Underlying> {
    set u | u in h.issued && Unloaded(c) && LetsGoOf(h, c, u)
  }

  // The books before and after a call.
  ghost predicate CallBooked(h: Heap, released: set<Underlying>, forgotten: set<Underlying>, h': Heap) {
    && h'.released == h.released + released && h'.orphaned == h.orphaned + forgotten
    && released !! forgotten
    && (forall u :: u in released || u in forgotten ==> u in h.issued && u !in h.released && u !in h.orphaned)
    && (forall u :: u in h.issued ==> u in h'.issued && h'.issued[u] == h.issued[u])
  }

  lemma HeldIsOut(h: Heap, c: Call, u: Underlying)
    requires Books(h) && LetsGoOf(h, c, u)
    ensures Outstanding(h, u)
  {
    var r :| Targets(h, c, r) && Wraps(h, r, u);
  }

  lemma DisconnectLetsGo(h: Heap, d: Handle, loaded: bool, u: Underlying)
    requires Valid(h) && d in h.dbcs
    ensures var h1 := UnwrapStmts(h, Elements(h.dbcs[d].stmtList), loaded);
      LetsGoOf(h, Disconnect(d, loaded), u) <==>
        WrappedByStmt(h, Elements(h.dbcs[d].stmtList), u) || WrappedByDesc(h1, Elements(h.dbcs[d].descList), u)
  {
    var ss, xs := Elements(h.dbcs[d].stmtList), Elements(h.dbcs[d].descList);
    var h1 := UnwrapStmts(h, ss, loaded);
    assert LetsGoOf(h, Disconnect(d, loaded), u) <==> HeldBelow(h, {d}, u) by {
      if HeldBelow(h, {d}, u) {
        var r :| Wraps(h, r, u) && DbcOf(h, r) in {d};
        assert Targets(h, Disconnect(d, loaded), r);
      }
      if LetsGoOf(h, Disconnect(d, loaded), u) {
        var r :| Targets(h, Disconnect(d, loaded), r) && Wraps(h, r, u);
        assert DbcOf(h, r) in {d};
      }
    }
    assert forall x :: Wraps(h1, DescRef(x), u) <==> Wraps(h, DescRef(x), u);
    assert WrappedByDesc(h1, xs, u) <==> WrappedByDesc(h, xs, u);
    if HeldBelow(h, {d}, u) {
      HeldBelowSplits(h, d, u);
    }
    if WrappedByStmt(h, ss, u) || WrappedByDesc(h, xs, u) {
      HeldBelowJoins(h, d, u);
    }
  }

  lemma FreeConnectLetsGo(h: Heap, d: Handle, u: Underlying)
    ensures LetsGoOf(h, FreeConnect(d), u) <==> HeldBelow(h, {d}, u)
  {
    if HeldBelow(h, {d}, u) {
      var r :| Wraps(h, r, u) && DbcOf(h, r) in {d};
      assert Targets(h, FreeConnect(d), r);
    }
    if LetsGoOf(h, FreeConnect(d), u) {
      var r :| Targets(h, FreeConnect(d), r) && Wraps(h, r, u);
      assert DbcOf(h, r) in {d};
    }
  }

  lemma FreeEnvLetsGo(h: Heap, e: Handle, u: Underlying)
    requires Valid(h) && e in h.envs
    ensures LetsGoOf(h, FreeEnv(e), u) <==> HeldBelow(h, Elements(h.envs[e].dbcList), u)
  {
    assert EnvOk(h, e);
    if HeldBelow(h, Elements(h.envs[e].dbcList), u) {
      var r :| Wraps(h, r, u) && DbcOf(h, r) in Elements(h.envs[e].dbcList);
      assert Targets(h, FreeEnv(e), r);
    }
    if LetsGoOf(h, FreeEnv(e), u) {
      var r :| Targets(h, FreeEnv(e), r) && Wraps(h, r, u);
      assert DbcOf(h, r) in Elements(h.envs[e].dbcList);
    }
  }

  lemma SqlDisconnectLetsGo(h: Heap, d: Handle, u: Underlying)
    requires Valid(h) && d in h.dbcs
    ensures LetsGoOf(h, SqlDisconnect(d), u) <==> WrappedByStmt(h, Elements(h.dbcs[d].stmtList), u)
  {
    var ss := Elements(h.dbcs[d].stmtList);
    assert DbcOk(h, d);
    if WrappedByStmt(h, ss, u) {
      var s :| s in ss && Wraps(h, StmtRef(s), u);
      assert Targets(h, SqlDisconnect(d), StmtRef(s));
    }
    if LetsGoOf(h, SqlDisconnect(d), u) {
      var r :| Targets(h, SqlDisconnect(d), r) && Wraps(h, r, u);
      assert StmtOk(h, r.handle);
      assert r.handle in ss;
    }
  }

  lemma FreeOneLetsGo(h: Heap, x: Handle, u: Underlying)
    ensures LetsGoOf(h, FreeStmt(x), u) <==> WrappedByStmt(h, {x}, u)
    ensures LetsGoOf(h, FreeDesc(x), u) <==> WrappedByDesc(h, {x}, u)
  {
    assert Targets(h, FreeStmt(x), StmtRef(x)) && Targets(h, FreeDesc(x), DescRef(x));
  }

  // The calls that allocate take nothing from anybody.
  lemma AllocationLetsNothingGo(h: Heap, c: Call, u: Underlying)
    requires c.AllocEnv? || c.AllocDbc? || c.Connect? || c.AllocStmt? || c.AllocDesc? || c.Execute?
    ensures !LetsGoOf(h, c, u)
  {
  }

  lemma CallReleases(h: Heap, c: Call)
    requires Valid(h) && Callable(h, c)
    ensures After(h, c).released == h.released + Releases(h, c)
    ensures After(h, c).orphaned == h.orphaned + Forgets(h, c)
  {
    hide Valid, LetsGoOf, HeldBelow, WrappedByStmt, WrappedByDesc;
    forall u
      ensures u in After(h, c).released <==> u in h.released || u in Releases(h, c)
      ensures u in After(h, c).orphaned <==> u in h.orphaned || u in Forgets(h, c)
    {
      match c
      case FreeStmt(s) => FreeOneLetsGo(h, s, u);
      case FreeDesc(x) => FreeOneLetsGo(h, x, u);
      case Disconnect(d, loaded) => DisconnectLetsGo(h, d, loaded, u);
      case SqlDisconnect(d) => SqlDisconnectLetsGo(h, d, u);
      case FreeConnect(d) => FreeConnectLetsGo(h, d, u);
      case FreeEnv(e) => FreeEnvLetsGo(h, e, u);
      case _ => AllocationLetsNothingGo(h, c, u);
    }
  }

  lemma CallKeepsIssued(h: Heap, c: Call)
    requires Callable(h, c)
    ensures forall u :: u in h.issued ==> u in After(h, c).issued && After(h, c).issued[u] == h.issued[u]
  {
  }

  lemma CallIsBooked(h: Heap, c: Call)
    requires Valid(h) && Callable(h, c)
    ensures CallBooked(h, Releases(h, c), Forgets(h, c), After(h, c))
  {
    hide After, Callable, LetsGoOf, Books, Tree, Forest, Allocated;
    CallReleases(h, c);
    CallKeepsIssued(h, c);
    forall u | LetsGoOf(h, c, u) ensures Outstanding(h, u) {
      HeldIsOut(h, c, u);
    }
  }

  // ---------- runs ----------

  ghost function Releasings(h: Heap, calls: seq<Call>): (sets: seq<set<Underlying>>)
    requires Runs(h, calls)
    ensures |sets| == |calls|
    decreases |calls|
  {
    if calls == [] then [] else [Releases(h, calls[0])] + Releasings(After(h, calls[0]), calls[1..])
  }

  ghost function Forgettings(h: Heap, calls: seq<Call>): (sets: seq<set<Underlying>>)
    requires Runs(h, calls)
    ensures |sets| == |calls|
    decreases |calls|
  {
    if calls == [] then [] else [Forgets(h, calls[0])] + Forgettings(After(h, calls[0]), calls[1..])
  }

  ghost predicate In(sets: seq<set<Underlying>>, i: nat, u: Underlying) { i < |sets| && u in sets[i] }

  // The books of a run: what came back is what the calls gave back, each handle in one call only, and so for what was
  // forgotten; nothing is both.
  ghost predicate Booked(h: Heap, released: seq<set<Underlying>>, forgotten: seq<set<Underlying>>, h': Heap) {
    && (forall u :: u in h'.released <==> u in h.released || exists i :: In(released, i, u))
    && (forall u :: u in h'.orphaned <==> u in h.orphaned || exists i :: In(forgotten, i, u))
    && (forall i, u :: In(released, i, u) || In(forgotten, i, u) ==> u !in h.released && u !in h.orphaned)
    && Once(released) && Once(forgotten)
    && (forall i, j, u :: !(In(released, i, u) && In(forgotten, j, u)))
    && (forall u :: u in h.issued ==> u in h'.issued && h'.issued[u] == h.issued[u])
  }

  // No handle is in two of the sets.
  ghost predicate Once(sets: seq<set<Underlying>>) { forall i, j, u :: In(sets, i, u) && In(sets, j, u) ==> i == j }

  lemma InFront(first: set<Underlying>, rest: seq<set<Underlying>>, i: nat, u: Underlying)
    ensures In([first] + rest, i, u) <==> if i == 0 then u in first else In(rest, i - 1, u)
    ensures (exists k :: In([first] + rest, k, u)) <==> u in first || exists k :: In(rest, k, u)
  {
    if u in first {
      assert In([first] + rest, 0, u);
    }
    if k: nat :| In(rest, k, u) {
      assert In([first] + rest, k + 1, u);
    }
    if k: nat :| In([first] + rest, k, u) {
      assert k > 0 ==> In(rest, k - 1, u);
    }
  }

  lemma OnceInFront(first: set<Underlying>, rest: seq<set<Underlying>>)
    requires Once(rest) && forall i, u :: In(rest, i, u) ==> u !in first
    ensures Once([first] + rest)
  {
    forall i: nat, j: nat, u | In([first] + rest, i, u) && In([first] + rest, j, u) ensures i == j {
      InFront(first, rest, i, u);
      InFront(first, rest, j, u);
    }
  }

  lemma OneMoreCall(
    h: Heap, r: set<Underlying>, f: set<Underlying>, h1: Heap, rs: seq<set<Underlying>>, fs: seq<set<Underlying>>, h': Heap)
    requires CallBooked(h, r, f, h1) && Booked(h1, rs, fs, h')
    ensures Booked(h, [r] + rs, [f] + fs, h')
  {
    hide In;
    OnceInFront(r, rs);
    OnceInFront(f, fs);
    forall i: nat, u ensures In([r] + rs, i, u) <==> if i == 0 then u in r else In(rs, i - 1, u) { InFront(r, rs, i, u); }
    forall i: nat, u ensures In([f] + fs, i, u) <==> if i == 0 then u in f else In(fs, i - 1, u) { InFront(f, fs, i, u); }
    forall u
      ensures u in h'.released <==> u in h.released || exists i :: In([r] + rs, i, u)
      ensures u in h'.orphaned <==> u in h.orphaned || exists i :: In([f] + fs, i, u)
    {
      InFront(r, rs, 0, u);
      InFront(f, fs, 0, u);
    }
  }

  lemma {:induction false} RunIsBooked(h: Heap, calls: seq<Call>)
    requires Valid(h) && Runs(h, calls)
    ensures Booked(h, Releasings(h, calls), Forgettings(h, calls), Exec(h, calls))
    decreases |calls|
  {
    hide Valid, After, Callable, Booked, CallBooked, Releases, Forgets;
    if calls == [] {
      NothingIsBooked(h);
    } else {
      var h1 := After(h, calls[0]);
      CallKeepsValid(h, calls[0]);
      CallIsBooked(h, calls[0]);
      RunIsBooked(h1, calls[1..]);
      OneMoreCall(h, Releases(h, calls[0]), Forgets(h, calls[0]), h1,
                  Releasings(h1, calls[1..]), Forgettings(h1, calls[1..]), Exec(h, calls));
    }
  }

  lemma NothingIsBooked(h: Heap)
    ensures Booked(h, [], [], h)
  {
  }

  /** Over every mix of calls no underlying handle is given back by two of them or forgotten by two, none is both, and
      what has been given back or forgotten is what the calls did so to. */
  lemma ReleasedAtMostOnce(calls: seq<Call>)
    requires Runs(EMPTY, calls)
    ensures var rs, fs, h := Releasings(EMPTY, calls), Forgettings(EMPTY, calls), Exec(EMPTY, calls);
      && (forall i, j, u :: In(rs, i, u) && In(rs, j, u) ==> i == j)
      && (forall i, j, u :: In(fs, i, u) && In(fs, j, u) ==> i == j)
      && (forall u :: u in h.released <==> exists i :: In(rs, i, u))
      && (forall u :: u in h.orphaned <==> exists i :: In(fs, i, u))
      && (forall i, j, u :: !(In(rs, i, u) && In(fs, j, u)))
  {
    hide Valid, Releasings, Forgettings, Exec, In;
    EmptyIsValid();
    RunIsBooked(EMPTY, calls);
  }

  lemma EmptyIsValid()
    ensures Valid(EMPTY)
  {
  }

  // ---------- what a disconnect without a driver forgets ----------

  // The heap before call i.
  ghost function Before(h: Heap, calls: seq<Call>, i: nat): Heap
    requires Runs(h, calls) && i < |calls|
    decreases |calls|
  {
    if i == 0 then h else Before(After(h, calls[0]), calls[1..], i - 1)
  }

  lemma {:induction false} ForgettingsAt(h: Heap, calls: seq<Call>, i: nat)
    requires Runs(h, calls) && i < |calls|
    ensures Forgettings(h, calls)[i] == Forgets(Before(h, calls, i), calls[i])
    ensures Releasings(h, calls)[i] == Releases(Before(h, calls, i), calls[i])
    decreases |calls|
  {
    hide After, Callable, Forgets, Releases;
    if i > 0 {
      ForgettingsAt(After(h, calls[0]), calls[1..], i - 1);
    }
  }

  // Call i disconnects, without a driver, a connection of the environment below which a live statement or explicit
  // descriptor still holds an underlying handle.
  ghost predicate Strands(h: Heap, c: Call, e: Handle) {
    && c.Disconnect? && !c.loaded && c.dbc in h.dbcs && h.dbcs[c.dbc].env == e
    && exists r, u :: Wraps(h, r, u) && DbcOf(h, r) == c.dbc
  }

  lemma StrandsForgets(h: Heap, c: Call, e: Handle)
    requires Valid(h) && Callable(h, c) && Strands(h, c, e)
    ensures exists u :: u in Forgets(h, c) && u in h.issued && h.issued[u] == e
  {
    var r, u :| Wraps(h, r, u) && DbcOf(h, r) == c.dbc;
    assert Targets(h, c, r);
    assert LetsGoOf(h, c, u);
    HeldIsOut(h, c, u);
    assert u in Forgets(h, c);
  }

  lemma ForgetsStrands(h: Heap, c: Call, u: Underlying)
    requires Valid(h) && u in Forgets(h, c)
    ensures Strands(h, c, h.issued[u])
  {
    var r :| Targets(h, c, r) && Wraps(h, r, u);
    assert Wraps(h, r, u) && DbcOf(h, r) == c.dbc;
  }

  lemma {:induction false} BeforeIsValid(h: Heap, calls: seq<Call>, i: nat)
    requires Valid(h) && Runs(h, calls) && i < |calls|
    ensures Valid(Before(h, calls, i)) && Callable(Before(h, calls, i), calls[i])
    ensures forall u :: u in Before(h, calls, i).issued ==>
      u in Exec(h, calls).issued && Exec(h, calls).issued[u] == Before(h, calls, i).issued[u]
    decreases |calls|
  {
    hide Valid, After, Callable;
    if i == 0 {
      RunIsBooked(h, calls);
    } else {
      CallKeepsValid(h, calls[0]);
      BeforeIsValid(After(h, calls[0]), calls[1..], i - 1);
    }
  }

  /** A handle is forgotten exactly when a disconnect without a driver meets its live holder. */
  lemma ForgottenExactly(calls: seq<Call>, u: Underlying)
    requires Runs(EMPTY, calls)
    ensures u in Exec(EMPTY, calls).orphaned <==>
      exists i :: 0 <= i < |calls| && u in Forgets(Before(EMPTY, calls, i), calls[i])
  {
    hide Valid, Exec, Forgets, Before;
    EmptyIsValid();
    RunIsBooked(EMPTY, calls);
    var fs := Forgettings(EMPTY, calls);
    forall i: nat | i < |calls| ensures In(fs, i, u) <==> u in Forgets(Before(EMPTY, calls, i), calls[i]) {
      ForgettingsAt(EMPTY, calls, i);
    }
    if i :| 0 <= i < |calls| && u in Forgets(Before(EMPTY, calls, i), calls[i]) {
      assert In(fs, i, u);
    }
  }

  // Nothing of an environment that has been freed is out.
  lemma NothingOutOfFreed(h: Heap, e: Handle, u: Underlying)
    requires Books(h) && e !in h.envs && u in h.issued && h.issued[u] == e
    ensures u in h.released <==> u !in h.orphaned
  {
    assert forall r :: Wraps(h, r, u) ==> h.dbcs[DbcOf(h, r)].env == h.issued[u];
    assert !Outstanding(h, u);
  }

  // The handle was given out for the environment, and has not come back.
  ghost predicate Unreturned(h: Heap, e: Handle, u: Underlying) {
    u in h.issued && h.issued[u] == e && u !in h.released
  }

  lemma StrandedIsNotReleased(calls: seq<Call>, e: Handle, i: nat)
    requires Runs(EMPTY, calls) && i < |calls| && Strands(Before(EMPTY, calls, i), calls[i], e)
    ensures exists u :: Unreturned(Exec(EMPTY, calls), e, u)
  {
    hide Books, Tree, Forest, Allocated, Strands, Forgets, Callable;
    EmptyIsValid();
    BeforeIsValid(EMPTY, calls, i);
    RunKeepsValid(EMPTY, calls);
    var b := Before(EMPTY, calls, i);
    StrandsForgets(b, calls[i], e);
    var u :| u in Forgets(b, calls[i]) && u in b.issued && b.issued[u] == e;
    ForgottenExactly(calls, u);
    ReleasedIsNotForgotten(Exec(EMPTY, calls), u);
    assert Unreturned(Exec(EMPTY, calls), e, u);
  }

  lemma ReleasedIsNotForgotten(h: Heap, u: Underlying)
    requires Valid(h) && u in h.orphaned
    ensures u !in h.released
  {
  }

  lemma UnstrandedIsReleased(calls: seq<Call>, e: Handle, u: Underlying)
    requires Runs(EMPTY, calls) && e !in Exec(EMPTY, calls).envs
    requires forall i :: 0 <= i < |calls| ==> !Strands(Before(EMPTY, calls, i), calls[i], e)
    ensures !Unreturned(Exec(EMPTY, calls), e, u)
  {
    hide Valid, Strands, Forgets, Callable;
    EmptyIsValid();
    RunKeepsValid(EMPTY, calls);
    ValidHasBooks(Exec(EMPTY, calls));
    ForgottenExactly(calls, u);
    if Unreturned(Exec(EMPTY, calls), e, u) {
      NothingOutOfFreed(Exec(EMPTY, calls), e, u);
      var i :| 0 <= i < |calls| && u in Forgets(Before(EMPTY, calls, i), calls[i]);
      BeforeIsValid(EMPTY, calls, i);
      ForgottenIsIssued(Before(EMPTY, calls, i), calls[i], u);
      ForgetsStrands(Before(EMPTY, calls, i), calls[i], u);
      assert false;
    }
  }

  lemma ForgottenIsIssued(h: Heap, c: Call, u: Underlying)
    requires u in Forgets(h, c)
    ensures u in h.issued
  {
  }

  lemma ValidHasBooks(h: Heap)
    requires Valid(h)
    ensures Books(h)
  {
  }

  /** Once an environment has been freed, every underlying statement and explicit descriptor handle that the driver ever
      gave out for it has been given back if and only if no disconnect without a driver met a live holder below it. */
  lemma FreedEnvReleasesAll(calls: seq<Call>, e: Handle)
    requires Runs(EMPTY, calls) && e !in Exec(EMPTY, calls).envs
    ensures (forall u :: !Unreturned(Exec(EMPTY, calls), e, u))
      <==> forall i :: 0 <= i < |calls| ==> !Strands(Before(EMPTY, calls, i), calls[i], e)
  {
    hide Strands, Before, Exec, Unreturned;
    if i :| 0 <= i < |calls| && Strands(Before(EMPTY, calls, i), calls[i], e) {
      StrandedIsNotReleased(calls, e, i);
    } else {
      forall u ensures !Unreturned(Exec(EMPTY, calls), e, u) {
        UnstrandedIsReleased(calls, e, u);
      }
    }
  }

  /** In particular, all of them have if every disconnect of the run had a driver to call. */
  lemma LoadedReleasesAll(calls: seq<Call>, e: Handle)
    requires Runs(EMPTY, calls) && e !in Exec(EMPTY, calls).envs
    requires forall i :: 0 <= i < |calls| ==> !Unloaded(calls[i])
    ensures forall u :: !Unreturned(Exec(EMPTY, calls), e, u)
    ensures Exec(EMPTY, calls).orphaned == {}
  {
    hide Before, Exec;
    FreedEnvReleasesAll(calls, e);
    forall u ensures u !in Exec(EMPTY, calls).orphaned {
      ForgottenExactly(calls, u);
    }
  }

  /** The failing input: a statement gets an underlying handle, its connection is disconnected without a driver, and the
      environment is freed; the handle is never given back. */
  lemma HandleCanBeForgotten()
    ensures exists calls, u :: Runs(EMPTY, calls) && 1 !in Exec(EMPTY, calls).envs && Unreturned(Exec(EMPTY, calls), 1, u)
  {
    hide Callable, After, Exec, Strands, Before;
    var made := ReachOneStatement(Some(9));
    var one := OneStatement(Some(9));
    OneStatementStrands();
    EnvCanBeFreed();
    var cut := Extend(made, Disconnect(2, false));
    BeforeLast(EMPTY, made, Disconnect(2, false));
    var calls := Extend(cut, FreeEnv(1));
    BeforeEarlier(EMPTY, cut, [FreeEnv(1)], 4);
    StrandedIsNotReleased(calls, 1, 4);
  }

  lemma OneStatementStrands()
    ensures var one, c := OneStatement(Some(9)), Disconnect(2, false);
      Callable(one, c) && Strands(one, c, 1)
  {
    var one := OneStatement(Some(9));
    assert Wraps(one, StmtRef(3), 9) && DbcOf(one, StmtRef(3)) == 2;
  }

  lemma EnvCanBeFreed()
    ensures var cut := After(OneStatement(Some(9)), Disconnect(2, false));
      Callable(cut, FreeEnv(1)) && 1 !in After(cut, FreeEnv(1)).envs
  {
    hide UnwrapDescs, UnwrapStmts;
    var one := OneStatement(Some(9));
    UnwrapKeepsEnvs(one, Elements([3]), {}, false);
    UnwrapKeepsEnvs(UnwrapStmts(one, Elements([3]), false), {}, Elements([]), false);
  }

  lemma UnwrapKeepsEnvs(h: Heap, ss: set<Handle>, xs: set<Handle>, loaded: bool)
    ensures UnwrapStmts(h, ss, loaded).envs == h.envs && UnwrapStmts(h, ss, loaded).dbcs == h.dbcs
    ensures UnwrapDescs(h, xs, loaded).envs == h.envs && UnwrapDescs(h, xs, loaded).dbcs == h.dbcs
  {
  }

  lemma {:induction false} BeforeLast(h: Heap, calls: seq<Call>, c: Call)
    requires Runs(h, calls) && Runs(h, calls + [c])
    ensures Before(h, calls + [c], |calls|) == Exec(h, calls)
    decreases |calls|
  {
    hide After, Callable;
    if calls != [] {
      assert (calls + [c])[0] == calls[0] && (calls + [c])[1..] == calls[1..] + [c];
      BeforeLast(After(h, calls[0]), calls[1..], c);
    }
  }

  lemma {:induction false} BeforeEarlier(h: Heap, calls: seq<Call>, more: seq<Call>, i: nat)
    requires Runs(h, calls) && Runs(h, calls + more) && i < |calls|
    ensures Before(h, calls + more, i) == Before(h, calls, i)
    decreases |calls|
  {
    hide After, Callable;
    assert (calls + more)[0] == calls[0] && (calls + more)[1..] == calls[1..] + more;
    if i > 0 {
      BeforeEarlier(After(h, calls[0]), calls[1..], more, i - 1);
    }
  }
}
