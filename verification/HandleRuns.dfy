/** Whole runs of allocations, frees and disconnects, in any order and on any handles. */
module HandleRuns {

  import opened Options
  import opened HandleTree
  import opened HandleDeletion
  import opened HandleChanges

  datatype Call =
    | AllocEnv
    | AllocDbc(env: Handle)
    | Connect(dbc: Handle)
    | AllocStmt(dbc: Handle, grant: Option<Underlying>)
    | AllocDesc(dbc: Handle, grant: Option<Underlying>)
    | Execute(stmt: Handle, grant: Option<Underlying>)
    | FreeStmt(stmt: Handle)
    | FreeDesc(desc: Handle)
    | Disconnect(dbc: Handle, loaded: bool)
    | SqlDisconnect(dbc: Handle)
    | FreeConnect(dbc: Handle)
    | FreeEnv(env: Handle)

  // The caller passes live handles, and frees explicit descriptors only.
  predicate Callable(h: Heap, c: Call) {
    match c
    case AllocEnv => true
    case AllocDbc(e) => e in h.envs
    case Connect(d) => d in h.dbcs && h.dbcs[d].env in h.envs
    case AllocStmt(d, grant) => d in h.dbcs && h.dbcs[d].wrapped && Grantable(h, d, grant)
    case AllocDesc(d, grant) => d in h.dbcs && h.dbcs[d].wrapped && Grantable(h, d, grant)
    case Execute(s, grant) =>
      s in h.stmts && h.stmts[s].wrapped.None? && h.stmts[s].dbc in h.dbcs && Grantable(h, h.stmts[s].dbc, grant)
    case FreeStmt(s) => s in h.stmts
    case FreeDesc(x) => Explicit(h, x)
    case Disconnect(d, _) => d in h.dbcs
    case SqlDisconnect(d) => d in h.dbcs
    case FreeConnect(d) => d in h.dbcs
    case FreeEnv(e) => e in h.envs
  }

  ghost function After(h: Heap, c: Call): Heap
    requires Callable(h, c)
  {
    match c
    case AllocEnv => AllocEnvSpec(h)
    case AllocDbc(e) => AllocDbcSpec(h, e)
    case Connect(d) => Connected(h, d)
    case AllocStmt(d, grant) => AllocStmtSpec(h, d, grant)
    case AllocDesc(d, grant) => AllocDescSpec(h, d, grant)
    case Execute(s, grant) => RewrapSpec(h, s, grant)
    case FreeStmt(s) => DropStmts(h, {s})
    case FreeDesc(x) => DropDescs(h, {x})
    case Disconnect(d, loaded) => Disconnected(h, d, loaded)
    case SqlDisconnect(d) => DropStmts(h, Elements(h.dbcs[d].stmtList))
    case FreeConnect(d) => Prune(h, {d})
    case FreeEnv(e) => FreedEnv(h, e)
  }

  lemma CallKeepsValid(h: Heap, c: Call)
    requires Valid(h) && Callable(h, c)
    ensures Valid(After(h, c))
  {
    hide Valid;
    match c
    case AllocEnv => AllocEnvKeepsValid(h);
    case AllocDbc(e) => AllocDbcKeepsValid(h, e);
    case Connect(d) => ConnectedKeepsValid(h, d);
    case AllocStmt(d, grant) => AllocStmtKeepsValid(h, d, grant);
    case AllocDesc(d, grant) => AllocDescKeepsValid(h, d, grant);
    case Execute(s, grant) => RewrapKeepsValid(h, s, grant);
    case FreeStmt(s) => DropStmtsKeepsValid(h, {s});
    case FreeDesc(x) => DropDescsKeepsValid(h, {x});
    case Disconnect(d, loaded) => DisconnectedKeepsValid(h, d, loaded);
    case SqlDisconnect(d) => DropStmtsKeepsValid(h, Elements(h.dbcs[d].stmtList));
    case FreeConnect(d) => PruneKeepsValid(h, {d});
    case FreeEnv(e) => FreedEnvKeepsValid(h, e);
  }

  ghost predicate Runs(h: Heap, calls: seq<Call>)
    decreases |calls|
  {
    calls == [] || (Callable(h, calls[0]) && Runs(After(h, calls[0]), calls[1..]))
  }

  ghost function Exec(h: Heap, calls: seq<Call>): Heap
    requires Runs(h, calls)
    decreases |calls|
  {
    if calls == [] then h else Exec(After(h, calls[0]), calls[1..])
  }

  lemma {:induction false} RunKeepsValid(h: Heap, calls: seq<Call>)
    requires Valid(h) && Runs(h, calls)
    ensures Valid(Exec(h, calls))
    decreases |calls|
  {
    hide Valid, After;
    if calls != [] {
      CallKeepsValid(h, calls[0]);
      RunKeepsValid(After(h, calls[0]), calls[1..]);
    }
  }

  // ---------- what a valid heap means ----------

  lemma {:induction false} DistinctCounts(l: seq<Handle>, x: Handle)
    requires Distinct(l)
    ensures multiset(l)[x] == if x in l then 1 else 0
  {
    if l != [] {
      assert l == [l[0]] + l[1..];
      assert Distinct(l[1..]) && l[0] !in l[1..];
      DistinctCounts(l[1..], x);
    }
  }

  /** Over every run each live connection is in the list of its environment exactly once and in no other, and
      each statement and each explicit descriptor in the list of its connection exactly once. */
  lemma EachListedOnce(calls: seq<Call>)
    requires Runs(EMPTY, calls)
    ensures var h := Exec(EMPTY, calls);
      && (forall e, d :: e in h.envs && d in h.dbcs ==>
            multiset(h.envs[e].dbcList)[d] == if h.dbcs[d].env == e then 1 else 0)
      && (forall d, s :: d in h.dbcs && s in h.stmts ==>
            multiset(h.dbcs[d].stmtList)[s] == if h.stmts[s].dbc == d then 1 else 0)
      && (forall d, x :: d in h.dbcs && Explicit(h, x) ==>
            multiset(h.dbcs[d].descList)[x] == if h.descs[x].dbc == d then 1 else 0)
  {
    RunKeepsValid(EMPTY, calls);
    ValidListsOnce(Exec(EMPTY, calls));
  }

  lemma ValidListsOnce(h: Heap)
    requires Valid(h)
    ensures forall e, d :: e in h.envs && d in h.dbcs ==>
              multiset(h.envs[e].dbcList)[d] == if h.dbcs[d].env == e then 1 else 0
    ensures forall d, s :: d in h.dbcs && s in h.stmts ==>
              multiset(h.dbcs[d].stmtList)[s] == if h.stmts[s].dbc == d then 1 else 0
    ensures forall d, x :: d in h.dbcs && Explicit(h, x) ==>
              multiset(h.dbcs[d].descList)[x] == if h.descs[x].dbc == d then 1 else 0
  {
    forall e, d | e in h.envs && d in h.dbcs
      ensures multiset(h.envs[e].dbcList)[d] == if h.dbcs[d].env == e then 1 else 0
    {
      assert EnvOk(h, e);
      DistinctCounts(h.envs[e].dbcList, d);
    }
    forall d, s | d in h.dbcs && s in h.stmts
      ensures multiset(h.dbcs[d].stmtList)[s] == if h.stmts[s].dbc == d then 1 else 0
    {
      assert DbcOk(h, d) && StmtOk(h, s);
      DistinctCounts(h.dbcs[d].stmtList, s);
    }
    forall d, x | d in h.dbcs && Explicit(h, x)
      ensures multiset(h.dbcs[d].descList)[x] == if h.descs[x].dbc == d then 1 else 0
    {
      assert DbcOk(h, d);
      DistinctCounts(h.dbcs[d].descList, x);
    }
  }

  /** Over every run a descriptor is either explicit or belongs to exactly one statement. */
  lemma ImplicitBelongsToOne(calls: seq<Call>, x: Handle)
    requires Runs(EMPTY, calls) && x in Exec(EMPTY, calls).descs
    ensures var h := Exec(EMPTY, calls);
      && (Explicit(h, x) <==> !exists s :: ImplicitOf(h, s, x))
      && (forall s, s' :: ImplicitOf(h, s, x) && ImplicitOf(h, s', x) ==> s == s')
  {
    RunKeepsValid(EMPTY, calls);
    var h := Exec(EMPTY, calls);
    assert DescOk(h, x);
    forall s ensures !(Explicit(h, x) && ImplicitOf(h, s, x)) { ExplicitIsNotImplicit(h, s, x); }
  }

  /** Over every run the underlying handles that are out are held by live statements and descriptors, each by
      one; what is not out any more is held by none, so no later call can release it again. */
  lemma UnderlyingHeldOnce(calls: seq<Call>, u: Underlying)
    requires Runs(EMPTY, calls)
    ensures var h := Exec(EMPTY, calls);
      && (Outstanding(h, u) <==> exists r :: Wraps(h, r, u))
      && (forall r, r' :: Wraps(h, r, u) && Wraps(h, r', u) ==> r == r')
      && (u in h.issued && !Outstanding(h, u) <==> u in h.released || u in h.orphaned)
  {
    RunKeepsValid(EMPTY, calls);
  }

  /** Freeing a descriptor keeps the tree if and only if the descriptor is an explicit one. */
  lemma FreeDescNeedsExplicit(h: Heap, x: Handle)
    requires Valid(h) && x in h.descs
    ensures Valid(DropDescs(h, {x})) <==> Explicit(h, x)
  {
    if Explicit(h, x) {
      DropDescsKeepsValid(h, {x});
    } else {
      assert DescOk(h, x);
      var s :| ImplicitOf(h, s, x);
      assert !StmtOk(DropDescs(h, {x}), s);
    }
  }

  lemma Extend(calls: seq<Call>, c: Call) returns (longer: seq<Call>)
    requires Runs(EMPTY, calls) && Callable(Exec(EMPTY, calls), c)
    ensures longer == calls + [c] && Runs(EMPTY, longer) && Exec(EMPTY, longer) == After(Exec(EMPTY, calls), c)
  {
    longer := calls + [c];
    RunsConcat(EMPTY, calls, [c]);
  }

  lemma {:induction false} RunsConcat(h: Heap, calls: seq<Call>, more: seq<Call>)
    requires Runs(h, calls) && Runs(Exec(h, calls), more)
    ensures Runs(h, calls + more) && Exec(h, calls + more) == Exec(Exec(h, calls), more)
    decreases |calls|
  {
    hide Callable, After;
    if calls == [] {
      assert calls + more == more;
    } else {
      assert (calls + more)[0] == calls[0] && (calls + more)[1..] == calls[1..] + more;
      RunsConcat(After(h, calls[0]), calls[1..], more);
    }
  }

  // An environment, a connected connection, and a statement that got an underlying handle, or none.
  function OneStatement(grant: Option<Underlying>): Heap {
    var implicit := Desc(2, None);
    Heap(map[1 := Env([2], true)], map[2 := Dbc(1, [3], [], true)], map[3 := Stmt(2, grant, 4, 5, 6, 7)],
         map[4 := implicit, 5 := implicit, 6 := implicit, 7 := implicit], 8,
         if grant.Some? then map[grant.value := 1] else map[], {}, {})
  }

  lemma ReachOneStatement(grant: Option<Underlying>) returns (calls: seq<Call>)
    ensures calls == [AllocEnv, AllocDbc(1), Connect(2), AllocStmt(2, grant)]
    ensures Runs(EMPTY, calls) && Exec(EMPTY, calls) == OneStatement(grant)
  {
    var none: seq<Handle> := [];
    assert none + [2] == [2];
    calls := Extend([], AllocEnv);
    calls := Extend(calls, AllocDbc(1));
    calls := Extend(calls, Connect(2));
    var h := Exec(EMPTY, calls);
    assert h.envs == map[1 := Env([2], true)] && h.dbcs == map[2 := Dbc(1, [], [], true)] && h.next == 3;
    calls := Extend(calls, AllocStmt(2, grant));
    OneMoreStatement(grant, h);
  }

  lemma OneMoreStatement(grant: Option<Underlying>, h: Heap)
    requires h == EMPTY.(envs := map[1 := Env([2], true)], dbcs := map[2 := Dbc(1, [], [], true)], next := 3)
    ensures AllocStmtSpec(h, 2, grant) == OneStatement(grant)
  {
    var none: seq<Handle> := [];
    assert none + [3] == [3];
    var h', one := AllocStmtSpec(h, 2, grant), OneStatement(grant);
    assert h'.dbcs == one.dbcs;
    assert h'.stmts == one.stmts;
    assert h'.descs == one.descs;
    assert h'.issued == one.issued;
  }

  /** The failing input: a statement is made and one of its implicit descriptors is freed. */
  lemma ImplicitCanBeFreed()
    ensures exists calls, x :: Runs(EMPTY, calls) && x in Exec(EMPTY, calls).descs && !Valid(DropDescs(Exec(EMPTY, calls), {x}))
  {
    var calls := ReachOneStatement(None);
    RunKeepsValid(EMPTY, calls);
    assert 4 in Exec(EMPTY, calls).descs && !Explicit(Exec(EMPTY, calls), 4);
    FreeDescNeedsExplicit(Exec(EMPTY, calls), 4);
  }
}
