/** Changes that keep every object: disconnecting, connecting and allocating. */
module HandleChanges {

  import opened Options
  import opened HandleTree

  // ---------- OdbcHelper::Disconnect ----------

  // Statements and explicit descriptors stay in the tree but lose their underlying handles.
  ghost function UnwrapStmts(h: Heap, ss: set<Handle>, loaded: bool): Heap {
    var let := set u | u in h.issued && WrappedByStmt(h, ss, u);
    h.(stmts := map s | s in h.stmts :: if s in ss then h.stmts[s].(wrapped := None) else h.stmts[s],
       released := if loaded then h.released + let else h.released,
       orphaned := if loaded then h.orphaned else h.orphaned + let)
  }

  ghost function UnwrapDescs(h: Heap, xs: set<Handle>, loaded: bool): Heap {
    var let := set u | u in h.issued && WrappedByDesc(h, xs, u);
    h.(descs := map x | x in h.descs :: if x in xs then h.descs[x].(wrapped := None) else h.descs[x],
       released := if loaded then h.released + let else h.released,
       orphaned := if loaded then h.orphaned else h.orphaned + let)
  }

  // Nothing but underlying handles changed.
  ghost predicate SameShape(h: Heap, h': Heap) {
    && h'.envs == h.envs && h'.dbcs == h.dbcs && h'.next == h.next
    && h'.stmts.Keys == h.stmts.Keys && h'.descs.Keys == h.descs.Keys
    && (forall s :: s in h.stmts ==> h'.stmts[s] == h.stmts[s].(wrapped := h'.stmts[s].wrapped))
    && (forall x :: x in h.descs ==> h'.descs[x].dbc == h.descs[x].dbc)
    && (forall x :: x in h.descs && h.descs[x].wrapped.None? ==> h'.descs[x].wrapped.None?)
  }

  lemma SameShapeStmt(h: Heap, h': Heap, s: Handle)
    requires SameShape(h, h') && s in h.stmts && StmtOk(h, s)
    ensures StmtOk(h', s)
  {
  }

  lemma SameShapeDesc(h: Heap, h': Heap, x: Handle)
    requires SameShape(h, h') && x in h.descs && DescOk(h, x)
    ensures DescOk(h', x)
  {
    if !Explicit(h, x) {
      var s :| ImplicitOf(h, s, x);
      assert ImplicitOf(h', s, x);
    }
  }

  lemma SameShapeKeepsForest(h: Heap, h': Heap)
    requires Forest(h) && SameShape(h, h')
    ensures Forest(h')
  {
    forall d | d in h'.dbcs ensures DbcOk(h', d) { assert DbcOk(h, d); }
    forall s | s in h'.stmts ensures StmtOk(h', s) { SameShapeStmt(h, h', s); }
    forall x | x in h'.descs ensures DescOk(h', x) { SameShapeDesc(h, h', x); }
    assert forall s, x :: ImplicitOf(h', s, x) ==> ImplicitOf(h, s, x);
  }

  lemma SameShapeKeepsTree(h: Heap, h': Heap)
    requires Tree(h) && SameShape(h, h')
    ensures Tree(h')
  {
    SameShapeKeepsForest(h, h');
    forall e | e in h'.envs ensures EnvOk(h', e) { assert EnvOk(h, e); }
  }

  lemma UnwrapStmtsLetsGo(h: Heap, ss: set<Handle>, loaded: bool)
    requires Books(h)
    ensures LetsGo(h, UnwrapStmts(h, ss, loaded), StmtRefs(ss), loaded)
  {
    forall u ensures WrappedByStmt(h, ss, u) <==> HeldIn(h, StmtRefs(ss), u) { WrappedByStmtIsHeld(h, ss, u); }
  }

  lemma UnwrapStmtsKeepsBooks(h: Heap, ss: set<Handle>, loaded: bool)
    requires Books(h)
    ensures Books(UnwrapStmts(h, ss, loaded))
  {
    UnwrapStmtsLetsGo(h, ss, loaded);
    LettingGoKeepsBooks(h, UnwrapStmts(h, ss, loaded), StmtRefs(ss), loaded);
  }

  lemma UnwrapStmtsKeepsValid(h: Heap, ss: set<Handle>, loaded: bool)
    requires Valid(h)
    ensures Valid(UnwrapStmts(h, ss, loaded))
  {
    hide Tree, Forest, Books;
    UnwrapStmtsKeepsBooks(h, ss, loaded);
    SameShapeKeepsTree(h, UnwrapStmts(h, ss, loaded));
    SameShapeKeepsForest(h, UnwrapStmts(h, ss, loaded));
  }

  lemma UnwrapDescsLetsGo(h: Heap, xs: set<Handle>, loaded: bool)
    requires Books(h)
    ensures LetsGo(h, UnwrapDescs(h, xs, loaded), DescRefs(xs), loaded)
  {
    forall u ensures WrappedByDesc(h, xs, u) <==> HeldIn(h, DescRefs(xs), u) { WrappedByDescIsHeld(h, xs, u); }
  }

  lemma UnwrapDescsKeepsBooks(h: Heap, xs: set<Handle>, loaded: bool)
    requires Books(h)
    ensures Books(UnwrapDescs(h, xs, loaded))
  {
    UnwrapDescsLetsGo(h, xs, loaded);
    LettingGoKeepsBooks(h, UnwrapDescs(h, xs, loaded), DescRefs(xs), loaded);
  }

  lemma UnwrapDescsKeepsValid(h: Heap, xs: set<Handle>, loaded: bool)
    requires Valid(h)
    ensures Valid(UnwrapDescs(h, xs, loaded))
  {
    hide Tree, Forest, Books;
    UnwrapDescsKeepsBooks(h, xs, loaded);
    SameShapeKeepsTree(h, UnwrapDescs(h, xs, loaded));
    SameShapeKeepsForest(h, UnwrapDescs(h, xs, loaded));
  }

  lemma UnwrapStmtsTwice(h: Heap, ss: set<Handle>, more: set<Handle>, loaded: bool)
    ensures UnwrapStmts(UnwrapStmts(h, ss, loaded), more, loaded) == UnwrapStmts(h, ss + more, loaded)
  {
    var h' := UnwrapStmts(h, ss, loaded);
    forall u ensures WrappedByStmt(h, ss + more, u) <==> WrappedByStmt(h, ss, u) || WrappedByStmt(h', more, u) {
      if WrappedByStmt(h, ss + more, u) {
        var s :| s in ss + more && Wraps(h, StmtRef(s), u);
        assert s in ss || Wraps(h', StmtRef(s), u);
      }
    }
  }

  lemma UnwrapDescsTwice(h: Heap, xs: set<Handle>, more: set<Handle>, loaded: bool)
    ensures UnwrapDescs(UnwrapDescs(h, xs, loaded), more, loaded) == UnwrapDescs(h, xs + more, loaded)
  {
    var h' := UnwrapDescs(h, xs, loaded);
    forall u ensures WrappedByDesc(h, xs + more, u) <==> WrappedByDesc(h, xs, u) || WrappedByDesc(h', more, u) {
      if WrappedByDesc(h, xs + more, u) {
        var x :| x in xs + more && Wraps(h, DescRef(x), u);
        assert x in xs || Wraps(h', DescRef(x), u);
      }
    }
  }

  // Statements first, then explicit descriptors, then the connection itself.
  ghost function Disconnected(h: Heap, d: Handle, loaded: bool): Heap
    requires d in h.dbcs
  {
    var h1 := UnwrapStmts(h, Elements(h.dbcs[d].stmtList), loaded);
    var h2 := UnwrapDescs(h1, Elements(h.dbcs[d].descList), loaded);
    h2.(dbcs := h2.dbcs[d := h2.dbcs[d].(wrapped := false)])
  }

  lemma DisconnectedKeepsValid(h: Heap, d: Handle, loaded: bool)
    requires Valid(h) && d in h.dbcs
    ensures Valid(Disconnected(h, d, loaded))
  {
    var h1 := UnwrapStmts(h, Elements(h.dbcs[d].stmtList), loaded);
    var h2 := UnwrapDescs(h1, Elements(h.dbcs[d].descList), loaded);
    UnwrapStmtsKeepsValid(h, Elements(h.dbcs[d].stmtList), loaded);
    UnwrapDescsKeepsValid(h1, Elements(h.dbcs[d].descList), loaded);
    SetConnectedKeepsValid(h2, d, false);
  }

  ghost function SetConnected(h: Heap, d: Handle, wrapped: bool): Heap
    requires d in h.dbcs
  {
    h.(dbcs := h.dbcs[d := h.dbcs[d].(wrapped := wrapped)])
  }

  // Only the connection's own flag differs.
  lemma SetConnectedKeepsForest(h: Heap, d: Handle, wrapped: bool)
    requires Forest(h) && d in h.dbcs
    ensures Forest(SetConnected(h, d, wrapped))
  {
    var h' := SetConnected(h, d, wrapped);
    forall x | x in h'.dbcs ensures DbcOk(h', x) { assert DbcOk(h, x); }
    forall x | x in h'.stmts ensures StmtOk(h', x) { assert StmtOk(h, x); }
    forall x | x in h'.descs ensures DescOk(h', x) {
      assert DescOk(h, x);
      if !Explicit(h, x) {
        var s :| ImplicitOf(h, s, x);
        assert ImplicitOf(h', s, x);
      }
    }
    assert forall s, x :: ImplicitOf(h', s, x) ==> ImplicitOf(h, s, x);
  }

  lemma SetConnectedKeepsValid(h: Heap, d: Handle, wrapped: bool)
    requires Valid(h) && d in h.dbcs
    ensures Valid(SetConnected(h, d, wrapped))
  {
    hide Forest, Books;
    SetConnectedKeepsForest(h, d, wrapped);
    SetConnectedKeepsEnvs(h, d, wrapped);
    SetConnectedKeepsBooks(h, d, wrapped);
  }

  lemma SetConnectedKeepsBooks(h: Heap, d: Handle, wrapped: bool)
    requires Books(h) && d in h.dbcs
    ensures Books(SetConnected(h, d, wrapped))
  {
    LettingGoKeepsBooks(h, SetConnected(h, d, wrapped), {}, true);
  }

  lemma SetConnectedKeepsEnvs(h: Heap, d: Handle, wrapped: bool)
    requires Tree(h) && d in h.dbcs
    ensures forall e :: e in h.envs ==> EnvOk(SetConnected(h, d, wrapped), e)
  {
    forall e | e in h.envs ensures EnvOk(SetConnected(h, d, wrapped), e) { assert EnvOk(h, e); }
  }

  // ---------- allocating ----------

  function AllocDbcSpec(h: Heap, e: Handle): Heap
    requires e in h.envs
  {
    h.(dbcs := h.dbcs[h.next := Dbc(e, [], [], false)],
       envs := h.envs[e := h.envs[e].(dbcList := h.envs[e].dbcList + [h.next])],
       next := h.next + 1)
  }

  // What the driver may answer to SQLAllocHandle: a handle that is not out yet, or none.
  predicate Grantable(h: Heap, d: Handle, grant: Option<Underlying>)
    requires d in h.dbcs
  {
    grant.Some? ==> grant.value !in h.issued && h.dbcs[d].env in h.envs && h.envs[h.dbcs[d].env].loader
  }

  function Issue(h: Heap, d: Handle, grant: Option<Underlying>): map<Underlying, Handle>
    requires d in h.dbcs
  {
    if grant.Some? then h.issued[grant.value := h.dbcs[d].env] else h.issued
  }

  function AllocStmtSpec(h: Heap, d: Handle, grant: Option<Underlying>): Heap
    requires d in h.dbcs
  {
    var s := h.next;
    var desc := Desc(d, None);
    h.(stmts := h.stmts[s := Stmt(d, grant, s + 1, s + 2, s + 3, s + 4)],
       descs := h.descs[s + 1 := desc][s + 2 := desc][s + 3 := desc][s + 4 := desc],
       dbcs := h.dbcs[d := h.dbcs[d].(stmtList := h.dbcs[d].stmtList + [s])],
       next := s + 5, issued := Issue(h, d, grant))
  }

  function AllocDescSpec(h: Heap, d: Handle, grant: Option<Underlying>): Heap
    requires d in h.dbcs
  {
    h.(descs := h.descs[h.next := Desc(d, grant)],
       dbcs := h.dbcs[d := h.dbcs[d].(descList := h.dbcs[d].descList + [h.next])],
       next := h.next + 1, issued := Issue(h, d, grant))
  }

  // DefaultPlugin::Execute on a statement that lost its underlying handle.
  function RewrapSpec(h: Heap, s: Handle, grant: Option<Underlying>): Heap
    requires s in h.stmts && h.stmts[s].dbc in h.dbcs
  {
    h.(stmts := h.stmts[s := h.stmts[s].(wrapped := grant)], issued := Issue(h, h.stmts[s].dbc, grant))
  }

  // ConnectionString handling loads the driver into the environment before it allocates the connection.
  function LoadDriver(h: Heap, e: Handle): Heap
    requires e in h.envs
  {
    h.(envs := h.envs[e := h.envs[e].(loader := true)])
  }

  lemma AllocDbcKeepsForest(h: Heap, e: Handle)
    requires Allocated(h) && Forest(h) && e in h.envs
    ensures Forest(AllocDbcSpec(h, e))
  {
    var h' := AllocDbcSpec(h, e);
    forall d | d in h'.dbcs ensures DbcOk(h', d) { if d != h.next { assert DbcOk(h, d); } }
    forall s | s in h'.stmts ensures StmtOk(h', s) { assert StmtOk(h, s); }
    forall x | x in h'.descs ensures DescOk(h', x) { AllocDbcKeepsDesc(h, e, x); }
    assert forall s, x :: ImplicitOf(h', s, x) ==> ImplicitOf(h, s, x);
  }

  lemma AllocDbcKeepsDesc(h: Heap, e: Handle, x: Handle)
    requires Allocated(h) && Forest(h) && e in h.envs && x in h.descs
    ensures DescOk(AllocDbcSpec(h, e), x)
  {
    assert DescOk(h, x);
    hide Forest;
    DescStays(h, AllocDbcSpec(h, e), x);
  }

  lemma AllocDbcKeepsEnvs(h: Heap, e: Handle)
    requires Allocated(h) && Tree(h) && e in h.envs
    ensures var h' := AllocDbcSpec(h, e);
      && (forall x :: x in h'.envs ==> EnvOk(h', x))
      && (forall d :: d in h'.dbcs ==> h'.dbcs[d].env in h'.envs && d in h'.envs[h'.dbcs[d].env].dbcList)
  {
    var h' := AllocDbcSpec(h, e);
    forall x | x in h'.envs ensures EnvOk(h', x) {
      assert EnvOk(h, x);
      AppendDistinct(h.envs[x].dbcList, h.next);
    }
  }

  // No holder and no underlying handle changed.
  ghost predicate SameBooks(h: Heap, h': Heap) {
    && h'.issued == h.issued && h'.released == h.released && h'.orphaned == h.orphaned
    && (forall e :: e in h.envs ==> e in h'.envs && (h.envs[e].loader ==> h'.envs[e].loader))
    && (forall d :: d in h.dbcs ==> d in h'.dbcs && h'.dbcs[d].env == h.dbcs[d].env)
    && (forall r, u :: Wraps(h', r, u) <==> Wraps(h, r, u))
    && (forall r, u :: Wraps(h', r, u) ==> DbcOf(h', r) == DbcOf(h, r))
  }

  lemma SameBooksKeepsBooks(h: Heap, h': Heap)
    requires Books(h) && SameBooks(h, h')
    ensures Books(h')
  {
    forall u | Outstanding(h', u) ensures exists r :: Wraps(h', r, u) {
      assert Outstanding(h, u);
      var r :| Wraps(h, r, u);
      assert Wraps(h', r, u);
    }
    forall r, u | Wraps(h', r, u) ensures Outstanding(h', u) { assert Wraps(h, r, u); }
  }

  lemma AllocDbcKeepsBooks(h: Heap, e: Handle)
    requires Allocated(h) && Books(h) && e in h.envs
    ensures Books(AllocDbcSpec(h, e))
  {
    SameBooksKeepsBooks(h, AllocDbcSpec(h, e));
  }

  lemma AllocDbcKeepsValid(h: Heap, e: Handle)
    requires Valid(h) && e in h.envs
    ensures Valid(AllocDbcSpec(h, e))
  {
    AllocDbcKeepsForest(h, e);
    AllocDbcKeepsEnvs(h, e);
    AllocDbcKeepsBooks(h, e);
  }

  lemma LoadDriverKeepsValid(h: Heap, e: Handle)
    requires Valid(h) && e in h.envs
    ensures Valid(LoadDriver(h, e))
  {
    SameBelow(h, LoadDriver(h, e));
    LoadDriverKeepsEnvs(h, e);
    LoadDriverKeepsBooks(h, e);
  }

  lemma LoadDriverKeepsEnvs(h: Heap, e: Handle)
    requires Tree(h) && e in h.envs
    ensures forall x :: x in h.envs ==> EnvOk(LoadDriver(h, e), x)
  {
    forall x | x in h.envs ensures EnvOk(LoadDriver(h, e), x) { assert EnvOk(h, x); }
  }

  lemma LoadDriverKeepsBooks(h: Heap, e: Handle)
    requires Books(h) && e in h.envs
    ensures Books(LoadDriver(h, e))
  {
    SameBooksKeepsBooks(h, LoadDriver(h, e));
  }

  // One new holder, holding what the driver has just issued, if anything.
  ghost predicate Acquires(h: Heap, h': Heap, r: Ref, d: Handle, grant: Option<Underlying>)
    requires d in h.dbcs
  {
    && h'.issued == Issue(h, d, grant) && h'.released == h.released && h'.orphaned == h.orphaned
    && h'.envs == h.envs
    && (forall x :: x in h.dbcs ==> x in h'.dbcs && h'.dbcs[x].env == h.dbcs[x].env)
    && (forall q, u: Underlying :: Wraps(h', q, u) <==> Wraps(h, q, u) || (q == r && grant == Some(u)))
    && (forall q, u :: Wraps(h, q, u) ==> q != r && DbcOf(h', q) == DbcOf(h, q))
    && DbcOf(h', r) == d
  }

  lemma AcquiringKeepsBooks(h: Heap, h': Heap, r: Ref, d: Handle, grant: Option<Underlying>)
    requires Books(h) && d in h.dbcs && Grantable(h, d, grant) && Acquires(h, h', r, d, grant)
    ensures Books(h')
  {
    forall u: Underlying | Outstanding(h', u) ensures exists q :: Wraps(h', q, u) {
      if grant == Some(u) {
        assert Wraps(h', r, u);
      } else {
        assert Outstanding(h, u);
        var q :| Wraps(h, q, u);
        assert Wraps(h', q, u);
      }
    }
    forall q, u | Wraps(h', q, u) ensures Outstanding(h', u) {
      if Wraps(h, q, u) {
        assert Outstanding(h, u);
      }
    }
    forall q, u: Underlying | Wraps(h, q, u) ensures grant != Some(u) { assert Outstanding(h, u); }
  }

  // ----- a statement -----

  lemma AllocStmtKeepsDbc(h: Heap, d: Handle, grant: Option<Underlying>, x: Handle)
    requires Allocated(h) && Forest(h) && d in h.dbcs && x in h.dbcs
    ensures DbcOk(AllocStmtSpec(h, d, grant), x)
  {
    hide Forest, StmtOk, DescOk;
    ForestGives(h);
    AppendDistinct(h.dbcs[x].stmtList, h.next);
  }

  lemma AllocStmtKeepsStmt(h: Heap, d: Handle, grant: Option<Underlying>, s: Handle)
    requires Allocated(h) && Forest(h) && d in h.dbcs && (s in h.stmts || s == h.next)
    ensures StmtOk(AllocStmtSpec(h, d, grant), s)
  {
    hide Forest, StmtOk, DbcOk, DescOk;
    ForestGives(h);
    if s in h.stmts {
      AllocStmtKeepsOldStmt(h, d, grant, s);
    } else {
      NewStmtIsOk(h, d, grant);
    }
  }

  lemma AllocStmtKeepsOldStmt(h: Heap, d: Handle, grant: Option<Underlying>, s: Handle)
    requires Allocated(h) && d in h.dbcs && s in h.stmts && StmtOk(h, s)
    ensures StmtOk(AllocStmtSpec(h, d, grant), s)
  {
  }

  lemma NewStmtIsOk(h: Heap, d: Handle, grant: Option<Underlying>)
    requires Allocated(h) && d in h.dbcs && DbcOk(h, d)
    ensures StmtOk(AllocStmtSpec(h, d, grant), h.next)
  {
    var s := h.next;
    assert forall x :: x in h.dbcs[d].descList ==> x < s;
  }

  lemma AllocStmtKeepsDesc(h: Heap, d: Handle, grant: Option<Underlying>, x: Handle)
    requires Allocated(h) && Forest(h) && d in h.dbcs && x in AllocStmtSpec(h, d, grant).descs
    ensures DescOk(AllocStmtSpec(h, d, grant), x)
  {
    hide Forest, DescOk, StmtOk, DbcOk;
    ForestGives(h);
    if x in h.descs {
      AllocStmtKeepsOldDesc(h, d, grant, x);
    } else {
      NewDescIsImplicit(h, d, grant, x);
    }
  }

  lemma AllocStmtKeepsOldDesc(h: Heap, d: Handle, grant: Option<Underlying>, x: Handle)
    requires Allocated(h) && d in h.dbcs && x in h.descs && DescOk(h, x)
    ensures DescOk(AllocStmtSpec(h, d, grant), x)
  {
    DescStays(h, AllocStmtSpec(h, d, grant), x);
  }

  lemma NewDescIsImplicit(h: Heap, d: Handle, grant: Option<Underlying>, x: Handle)
    requires d in h.dbcs && x !in h.descs && x in AllocStmtSpec(h, d, grant).descs
    ensures DescOk(AllocStmtSpec(h, d, grant), x)
  {
    assert ImplicitOf(AllocStmtSpec(h, d, grant), h.next, x);
  }

  lemma AllocStmtKeepsForest(h: Heap, d: Handle, grant: Option<Underlying>)
    requires Allocated(h) && Forest(h) && d in h.dbcs
    ensures Forest(AllocStmtSpec(h, d, grant))
  {
    var h' := AllocStmtSpec(h, d, grant);
    forall x | x in h'.dbcs ensures DbcOk(h', x) { AllocStmtKeepsDbc(h, d, grant, x); }
    forall s | s in h'.stmts ensures StmtOk(h', s) { AllocStmtKeepsStmt(h, d, grant, s); }
    forall x | x in h'.descs ensures DescOk(h', x) { AllocStmtKeepsDesc(h, d, grant, x); }
    forall s, s', x | ImplicitOf(h', s, x) && ImplicitOf(h', s', x) ensures s == s' {
      if s in h.stmts { assert StmtOk(h, s) && ImplicitOf(h, s, x); }
      if s' in h.stmts { assert StmtOk(h, s') && ImplicitOf(h, s', x); }
    }
  }

  lemma AllocStmtKeepsBooks(h: Heap, d: Handle, grant: Option<Underlying>)
    requires Allocated(h) && Books(h) && d in h.dbcs && Grantable(h, d, grant)
    ensures Books(AllocStmtSpec(h, d, grant))
  {
    AcquiringKeepsBooks(h, AllocStmtSpec(h, d, grant), StmtRef(h.next), d, grant);
  }

  lemma AllocStmtKeepsTree(h: Heap, d: Handle, grant: Option<Underlying>)
    requires Allocated(h) && Tree(h) && d in h.dbcs
    ensures Tree(AllocStmtSpec(h, d, grant))
  {
    AllocStmtKeepsForest(h, d, grant);
    SameEnvOfKeepsEnvs(h, AllocStmtSpec(h, d, grant));
  }

  lemma AllocStmtKeepsValid(h: Heap, d: Handle, grant: Option<Underlying>)
    requires Valid(h) && d in h.dbcs && Grantable(h, d, grant)
    ensures Valid(AllocStmtSpec(h, d, grant))
  {
    hide Tree, Forest, Books, Allocated;
    AllocStmtKeepsTree(h, d, grant);
    AllocStmtKeepsForest(h, d, grant);
    AllocStmtKeepsBooks(h, d, grant);
    AllocStmtKeepsAllocated(h, d, grant);
  }

  lemma AllocStmtKeepsAllocated(h: Heap, d: Handle, grant: Option<Underlying>)
    requires Allocated(h) && d in h.dbcs
    ensures Allocated(AllocStmtSpec(h, d, grant))
  {
  }

  // ----- an explicit descriptor -----

  lemma AllocDescKeepsDbc(h: Heap, d: Handle, grant: Option<Underlying>, x: Handle)
    requires Allocated(h) && Forest(h) && d in h.dbcs && x in h.dbcs
    ensures DbcOk(AllocDescSpec(h, d, grant), x)
  {
    hide Forest, StmtOk, DescOk;
    ForestGives(h);
    AppendDistinct(h.dbcs[x].descList, h.next);
  }

  lemma AllocDescKeepsStmt(h: Heap, d: Handle, grant: Option<Underlying>, s: Handle)
    requires Allocated(h) && Forest(h) && d in h.dbcs && s in h.stmts
    ensures StmtOk(AllocDescSpec(h, d, grant), s)
  {
    hide Forest, DbcOk, DescOk;
    ForestGives(h);
  }

  lemma AllocDescKeepsDesc(h: Heap, d: Handle, grant: Option<Underlying>, x: Handle)
    requires Allocated(h) && Forest(h) && d in h.dbcs && (x in h.descs || x == h.next)
    ensures DescOk(AllocDescSpec(h, d, grant), x)
  {
    if x in h.descs {
      assert DescOk(h, x);
      if !Explicit(h, x) {
        var s :| ImplicitOf(h, s, x);
        assert ImplicitOf(AllocDescSpec(h, d, grant), s, x);
      }
    }
  }

  lemma AllocDescKeepsForest(h: Heap, d: Handle, grant: Option<Underlying>)
    requires Allocated(h) && Forest(h) && d in h.dbcs
    ensures Forest(AllocDescSpec(h, d, grant))
  {
    var h' := AllocDescSpec(h, d, grant);
    forall x | x in h'.dbcs ensures DbcOk(h', x) { AllocDescKeepsDbc(h, d, grant, x); }
    forall s | s in h'.stmts ensures StmtOk(h', s) { AllocDescKeepsStmt(h, d, grant, s); }
    forall x | x in h'.descs ensures DescOk(h', x) { AllocDescKeepsDesc(h, d, grant, x); }
    assert forall s, x :: ImplicitOf(h', s, x) ==> ImplicitOf(h, s, x);
  }

  lemma AllocDescKeepsBooks(h: Heap, d: Handle, grant: Option<Underlying>)
    requires Allocated(h) && Books(h) && d in h.dbcs && Grantable(h, d, grant)
    ensures Books(AllocDescSpec(h, d, grant))
  {
    AcquiringKeepsBooks(h, AllocDescSpec(h, d, grant), DescRef(h.next), d, grant);
  }

  lemma AllocDescKeepsTree(h: Heap, d: Handle, grant: Option<Underlying>)
    requires Allocated(h) && Tree(h) && d in h.dbcs
    ensures Tree(AllocDescSpec(h, d, grant))
  {
    AllocDescKeepsForest(h, d, grant);
    SameEnvOfKeepsEnvs(h, AllocDescSpec(h, d, grant));
  }

  lemma AllocDescKeepsAllocated(h: Heap, d: Handle, grant: Option<Underlying>)
    requires Allocated(h) && d in h.dbcs
    ensures Allocated(AllocDescSpec(h, d, grant))
  {
  }

  lemma AllocDescKeepsValid(h: Heap, d: Handle, grant: Option<Underlying>)
    requires Valid(h) && d in h.dbcs && Grantable(h, d, grant)
    ensures Valid(AllocDescSpec(h, d, grant))
  {
    hide Tree, Forest, Books, Allocated;
    AllocDescKeepsTree(h, d, grant);
    AllocDescKeepsForest(h, d, grant);
    AllocDescKeepsBooks(h, d, grant);
    AllocDescKeepsAllocated(h, d, grant);
  }

  // ----- an underlying handle for an old statement -----

  lemma RewrapKeepsBooks(h: Heap, s: Handle, grant: Option<Underlying>)
    requires Books(h) && s in h.stmts && h.stmts[s].wrapped.None? && h.stmts[s].dbc in h.dbcs
    requires Grantable(h, h.stmts[s].dbc, grant)
    ensures Books(RewrapSpec(h, s, grant))
  {
    AcquiringKeepsBooks(h, RewrapSpec(h, s, grant), StmtRef(s), h.stmts[s].dbc, grant);
  }

  lemma RewrapKeepsValid(h: Heap, s: Handle, grant: Option<Underlying>)
    requires Valid(h) && s in h.stmts && h.stmts[s].wrapped.None? && h.stmts[s].dbc in h.dbcs
    requires Grantable(h, h.stmts[s].dbc, grant)
    ensures Valid(RewrapSpec(h, s, grant))
  {
    hide Tree, Forest, Books;
    RewrapKeepsBooks(h, s, grant);
    SameShapeKeepsTree(h, RewrapSpec(h, s, grant));
    SameShapeKeepsForest(h, RewrapSpec(h, s, grant));
  }

  // ----- an environment -----

  function AllocEnvSpec(h: Heap): Heap {
    h.(envs := h.envs[h.next := Env([], false)], next := h.next + 1)
  }

  lemma AllocEnvKeepsValid(h: Heap)
    requires Valid(h)
    ensures Valid(AllocEnvSpec(h))
  {
    hide Forest, Books;
    SameBelow(h, AllocEnvSpec(h));
    AllocEnvKeepsEnvs(h);
    AllocEnvKeepsBooks(h);
  }

  lemma AllocEnvKeepsEnvs(h: Heap)
    requires Allocated(h) && Tree(h)
    ensures forall e :: e in AllocEnvSpec(h).envs ==> EnvOk(AllocEnvSpec(h), e)
  {
    forall e | e in AllocEnvSpec(h).envs ensures EnvOk(AllocEnvSpec(h), e) {
      if e != h.next { assert EnvOk(h, e); }
    }
  }

  lemma AllocEnvKeepsBooks(h: Heap)
    requires Allocated(h) && Books(h)
    ensures Books(AllocEnvSpec(h))
  {
    SameBooksKeepsBooks(h, AllocEnvSpec(h));
  }

  // Connecting loads the driver and allocates the underlying connection.
  ghost function Connected(h: Heap, d: Handle): Heap
    requires d in h.dbcs && h.dbcs[d].env in h.envs
  {
    SetConnected(LoadDriver(h, h.dbcs[d].env), d, true)
  }

  lemma ConnectedKeepsValid(h: Heap, d: Handle)
    requires Valid(h) && d in h.dbcs && h.dbcs[d].env in h.envs
    ensures Valid(Connected(h, d))
  {
    LoadDriverKeepsValid(h, h.dbcs[d].env);
    SetConnectedKeepsValid(LoadDriver(h, h.dbcs[d].env), d, true);
  }
}
