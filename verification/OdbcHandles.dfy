/**
 * The functions that allocate and free ODBC handles, on the heap of the driver. Every use of an address is
 * proved to be a use of a live object, every SQLFreeHandle a release of a handle that is out; and each
 * cascade, which walks over copies of lists that its callees shorten, is proved to do what HandleDeletion
 * says it should.
 */
module OdbcHandles {

  import opened Options
  import opened HandleTree
  import opened HandleDeletion
  import opened HandleChanges

  datatype SqlReturn = SQL_SUCCESS | SQL_ERROR | SQL_INVALID_HANDLE

  datatype FreeOption = SQL_CLOSE | SQL_UNBIND | SQL_RESET_PARAMS | SQL_DROP

  class DriverHeap {

    var envs: map<Handle, Env>
    var dbcs: map<Handle, Dbc>
    var stmts: map<Handle, Stmt>
    var descs: map<Handle, Desc>
    var next: Handle
    // what the underlying driver remembers
    var issued: map<Underlying, Handle>
    var released: set<Underlying>
    ghost var orphaned: set<Underlying>

    ghost function View(): Heap
      reads this
    {
      Heap(envs, dbcs, stmts, descs, next, issued, released, orphaned)
    }

    constructor ()
      ensures View() == EMPTY && Valid(View())
    {
      envs, dbcs, stmts, descs := map[], map[], map[], map[];
      next := 1;
      issued, released, orphaned := map[], {}, {};
    }

    // The underlying driver's SQLFreeHandle; freeing a handle twice is what must never happen.
    method SQLFreeHandle(u: Underlying)
      requires u in issued && u !in released
      modifies this`released
      ensures released == old(released) + {u}
    {
      released := released + {u};
    }

    // ---------- allocating ----------

    method RDS_AllocEnv() returns (handle: Handle)
      requires Valid(View())
      modifies this
      ensures Valid(View()) && handle != 0 && handle !in old(envs) && View() == AllocEnvSpec(old(View()))
    {
      AllocEnvKeepsValid(View());
      handle := next;
      envs := envs[handle := Env([], false)];
      next := next + 1;
    }

    method RDS_AllocDbc(env: Handle) returns (ret: SqlReturn, handle: Handle)
      requires Valid(View()) && (env != 0 ==> env in envs)
      modifies this
      ensures Valid(View())
      ensures env == 0 ==> ret == SQL_INVALID_HANDLE && View() == old(View())
      ensures env != 0 ==> ret == SQL_SUCCESS && handle == old(next) && View() == AllocDbcSpec(old(View()), env)
    {
      hide Valid, Sound;
      if env == 0 {
        return SQL_INVALID_HANDLE, 0;
      }
      AllocDbcKeepsValid(View(), env);
      handle := next;
      next := next + 1;
      dbcs := dbcs[handle := Dbc(env, [], [], false)];
      envs := envs[env := envs[env].(dbcList := envs[env].dbcList + [handle])];
      ret := SQL_SUCCESS;
    }

    // What a successful connect leaves behind.
    method Connect(handle: Handle)
      requires Valid(View()) && handle in dbcs && dbcs[handle].env in envs
      modifies this
      ensures Valid(View()) && View() == Connected(old(View()), handle)
    {
      hide Valid, Sound;
      ConnectedKeepsValid(View(), handle);
      var env := dbcs[handle].env;
      envs := envs[env := envs[env].(loader := true)];
      dbcs := dbcs[handle := dbcs[handle].(wrapped := true)];
    }

    // The answer of the driver counts only when there is a driver to ask.
    method RDS_AllocStmt(dbc: Handle, answer: Option<Underlying>) returns (ret: SqlReturn, handle: Handle)
      requires Valid(View()) && (dbc != 0 ==> dbc in dbcs && dbcs[dbc].env in envs)
      requires answer.Some? ==> answer.value !in issued
      modifies this
      ensures Valid(View())
      ensures ret == SQL_SUCCESS <==> dbc != 0 && old(dbcs)[dbc].wrapped
      ensures ret != SQL_SUCCESS ==> ret == SQL_INVALID_HANDLE && View() == old(View())
      ensures ret == SQL_SUCCESS ==> handle == old(next)
      ensures ret == SQL_SUCCESS ==>
                View() == AllocStmtSpec(old(View()), dbc, if old(envs)[old(dbcs)[dbc].env].loader then answer else None)
    {
      hide Valid, Sound;
      if dbc == 0 || !dbcs[dbc].wrapped {
        return SQL_INVALID_HANDLE, 0;
      }
      var grant := if envs[dbcs[dbc].env].loader then answer else None;
      AllocStmtKeepsValid(View(), dbc, grant);
      handle := next;
      next := next + 1;
      if grant.Some? {
        issued := issued[grant.value := dbcs[dbc].env];
      }
      var appRow, appParam, impRow, impParam := next, next + 1, next + 2, next + 3;
      next := next + 4;
      descs := descs[appRow := Desc(dbc, None)][appParam := Desc(dbc, None)]
                    [impRow := Desc(dbc, None)][impParam := Desc(dbc, None)];
      stmts := stmts[handle := Stmt(dbc, grant, appRow, appParam, impRow, impParam)];
      dbcs := dbcs[dbc := dbcs[dbc].(stmtList := dbcs[dbc].stmtList + [handle])];
      ret := SQL_SUCCESS;
    }

    method RDS_AllocDesc(dbc: Handle, answer: Option<Underlying>) returns (ret: SqlReturn, handle: Handle)
      requires Valid(View()) && (dbc != 0 ==> dbc in dbcs && dbcs[dbc].env in envs)
      requires answer.Some? ==> answer.value !in issued
      modifies this
      ensures Valid(View())
      ensures ret == SQL_SUCCESS <==> dbc != 0 && old(dbcs)[dbc].wrapped
      ensures ret != SQL_SUCCESS ==> ret == SQL_INVALID_HANDLE && View() == old(View())
      ensures ret == SQL_SUCCESS ==> handle == old(next)
      ensures ret == SQL_SUCCESS ==>
                View() == AllocDescSpec(old(View()), dbc, if old(envs)[old(dbcs)[dbc].env].loader then answer else None)
    {
      hide Valid, Sound;
      if dbc == 0 || !dbcs[dbc].wrapped {
        return SQL_INVALID_HANDLE, 0;
      }
      var grant := if envs[dbcs[dbc].env].loader then answer else None;
      AllocDescKeepsValid(View(), dbc, grant);
      handle := next;
      next := next + 1;
      if grant.Some? {
        issued := issued[grant.value := dbcs[dbc].env];
      }
      descs := descs[handle := Desc(dbc, grant)];
      dbcs := dbcs[dbc := dbcs[dbc].(descList := dbcs[dbc].descList + [handle])];
      ret := SQL_SUCCESS;
    }

    // The start of DefaultPlugin::Execute: a statement that lost its underlying handle asks for a new one.
    method EnsureWrapped(handle: Handle, answer: Option<Underlying>) returns (ret: SqlReturn)
      requires Valid(View()) && handle in stmts && stmts[handle].dbc in dbcs && dbcs[stmts[handle].dbc].env in envs
      requires answer.Some? ==> answer.value !in issued
      modifies this
      ensures Valid(View())
      ensures ret == SQL_ERROR || ret == SQL_SUCCESS
      ensures ret == SQL_ERROR <==> old(stmts)[handle].wrapped.None? && !old(dbcs)[old(stmts)[handle].dbc].wrapped
      ensures old(stmts)[handle].wrapped.Some? || ret == SQL_ERROR ==> View() == old(View())
      ensures old(stmts)[handle].wrapped.None? && ret == SQL_SUCCESS ==>
                View() == RewrapSpec(old(View()), handle,
                                     if old(envs)[old(dbcs)[old(stmts)[handle].dbc].env].loader then answer else None)
    {
      hide Valid, Sound;
      var stmt := stmts[handle];
      if stmt.wrapped.Some? {
        return SQL_SUCCESS;
      }
      if !dbcs[stmt.dbc].wrapped {
        return SQL_ERROR;
      }
      var grant := if envs[dbcs[stmt.dbc].env].loader then answer else None;
      RewrapKeepsValid(View(), handle, grant);
      if grant.Some? {
        issued := issued[grant.value := dbcs[stmt.dbc].env];
      }
      stmts := stmts[handle := stmt.(wrapped := grant)];
      return SQL_SUCCESS;
    }

    // ---------- disconnecting ----------

    // OdbcHelper::Disconnect; `loaded` says whether the helper has a driver to call.
    method Disconnect(handle: Handle, loaded: bool)
      requires Valid(View()) && (handle != 0 ==> handle in dbcs)
      modifies this
      ensures Valid(View())
      ensures handle == 0 ==> View() == old(View())
      ensures handle != 0 ==> View() == Disconnected(old(View()), handle, loaded)
    {
      hide Valid, Sound, UnwrapStmts, UnwrapDescs;
      if handle == 0 {
        return;
      }
      ghost var before := View();
      ValidIsSound(before);
      var stmtList, descList := dbcs[handle].stmtList, dbcs[handle].descList;
      DisconnectedKeepsValid(before, handle, loaded);
      ListedStmtsLive(before, handle);
      ListedDescsLive(before, handle);
      UnwrapNothing(before, loaded);
      for i := 0 to |stmtList|
        invariant Valid(View())
        invariant View() == UnwrapStmts(before, Elements(stmtList[..i]), loaded)
      {
        UnwrapKeepsHandles(before, Elements(stmtList[..i]), {}, loaded);
        UnwrapStmtsTwice(before, Elements(stmtList[..i]), {stmtList[i]}, loaded);
        UnwrapStmtsKeepsValid(View(), {stmtList[i]}, loaded);
        ElementsStep(stmtList, i);
        UnwrapStmt(stmtList[i], loaded);
      }
      assert stmtList[..|stmtList|] == stmtList;
      ghost var half := View();
      UnwrapKeepsHandles(before, Elements(stmtList), {}, loaded);
      UnwrapNothing(half, loaded);
      for i := 0 to |descList|
        invariant Valid(View())
        invariant View() == UnwrapDescs(half, Elements(descList[..i]), loaded)
      {
        UnwrapKeepsHandles(half, {}, Elements(descList[..i]), loaded);
        UnwrapDescsTwice(half, Elements(descList[..i]), {descList[i]}, loaded);
        UnwrapDescsKeepsValid(View(), {descList[i]}, loaded);
        ElementsStep(descList, i);
        UnwrapDesc(descList[i], loaded);
      }
      assert descList[..|descList|] == descList;
      UnwrapKeepsHandles(half, {}, Elements(descList), loaded);
      dbcs := dbcs[handle := dbcs[handle].(wrapped := false)];
    }

    method UnwrapStmt(handle: Handle, loaded: bool)
      requires Valid(View()) && handle in stmts
      modifies this`stmts, this`released, this`orphaned
      ensures View() == UnwrapStmts(old(View()), {handle}, loaded)
    {
      hide Valid, Sound;
      ghost var before := View();
      ValidIsSound(before);
      LiveStmt(before, handle);
      forall u ensures u in before.issued && WrappedByStmt(before, {handle}, u) <==> stmts[handle].wrapped == Some(u) {
        DropOneReleases(before, handle, u);
      }
      if stmts[handle].wrapped.Some? {
        if loaded {
          SQLFreeHandle(stmts[handle].wrapped.value);
        } else {
          orphaned := orphaned + {stmts[handle].wrapped.value};
        }
      }
      stmts := stmts[handle := stmts[handle].(wrapped := None)];
    }

    method UnwrapDesc(handle: Handle, loaded: bool)
      requires Valid(View()) && handle in descs
      modifies this`descs, this`released, this`orphaned
      ensures View() == UnwrapDescs(old(View()), {handle}, loaded)
    {
      hide Valid, Sound;
      ghost var before := View();
      ValidIsSound(before);
      LiveDesc(before, handle);
      if descs[handle].wrapped.Some? {
        if loaded {
          SQLFreeHandle(descs[handle].wrapped.value);
        } else {
          orphaned := orphaned + {descs[handle].wrapped.value};
        }
      }
      descs := descs[handle := descs[handle].(wrapped := None)];
    }

    // ---------- freeing ----------

    // Returns the driver's answer for the options that keep the statement.
    method RDS_FreeStmt(handle: Handle, option: FreeOption, answer: SqlReturn) returns (ret: SqlReturn)
      requires Sound(View()) && (handle != 0 ==> handle in stmts)
      modifies this
      ensures Sound(View())
      ensures handle == 0 ==> ret == SQL_INVALID_HANDLE && View() == old(View())
      ensures handle != 0 && option == SQL_DROP ==>
                ret == SQL_SUCCESS && View() == DropStmts(old(View()), {handle})
      ensures handle != 0 && option != SQL_DROP ==>
                View() == old(View()) && ret == if old(stmts)[handle].wrapped.Some? then answer else SQL_ERROR
    {
      hide Sound, DropStmts;
      if handle == 0 {
        return SQL_INVALID_HANDLE;
      }
      var stmt := stmts[handle];
      if option != SQL_DROP {
        return if stmt.wrapped.Some? then answer else SQL_ERROR;
      }
      ghost var before := View();
      LiveStmt(before, handle);
      DropStmtsKeepsSound(before, {handle});
      var dbc := dbcs[stmt.dbc];
      dbcs := dbcs[stmt.dbc := dbc.(stmtList := Without(dbc.stmtList, {handle}))];
      if stmt.wrapped.Some? {
        SQLFreeHandle(stmt.wrapped.value);
      }
      descs := descs - {stmt.appRow};
      descs := descs - {stmt.appParam};
      descs := descs - {stmt.impRow};
      descs := descs - {stmt.impParam};
      stmts := stmts - {handle};
      DropOneStmt(before, handle, View());
      return SQL_SUCCESS;
    }

    // The code does not check that the descriptor is an explicit one, and takes an implicit one from its statement.
    method RDS_FreeDesc(handle: Handle) returns (ret: SqlReturn)
      requires Sound(View()) && (handle != 0 ==> handle in descs)
      modifies this
      ensures handle == 0 ==> ret == SQL_INVALID_HANDLE && View() == old(View())
      ensures handle != 0 ==> ret == SQL_SUCCESS && View() == DropDescs(old(View()), {handle})
      ensures handle != 0 ==> (Sound(View()) <==> Explicit(old(View()), handle))
    {
      hide Sound, DropDescs, Explicit;
      if handle == 0 {
        return SQL_INVALID_HANDLE;
      }
      ghost var before := View();
      SoundIffExplicit(before, handle);
      LiveDesc(before, handle);
      var desc := descs[handle];
      var dbc := dbcs[desc.dbc];
      dbcs := dbcs[desc.dbc := dbc.(descList := Without(dbc.descList, {handle}))];
      if desc.wrapped.Some? {
        SQLFreeHandle(desc.wrapped.value);
      }
      descs := descs - {handle};
      DropOneDesc(before, handle, View());
      return SQL_SUCCESS;
    }

    // Walks over a copy of the list that RDS_FreeStmt shortens.
    method DropStatements(handle: Handle)
      requires Sound(View()) && handle in dbcs
      modifies this
      ensures Sound(View())
      ensures View() == DropStmts(old(View()), Elements(old(dbcs)[handle].stmtList))
    {
      hide Sound, DropStmts;
      var stmtList := dbcs[handle].stmtList;
      ghost var before := View();
      ListedStmtsLive(before, handle);
      DropNoStmts(before);
      for i := 0 to |stmtList|
        invariant Sound(View())
        invariant View() == DropStmts(before, Elements(stmtList[..i]))
      {
        DropStmtsLeaves(before, stmtList, i);
        DropStmtsTwice(before, Elements(stmtList[..i]), {stmtList[i]});
        ElementsStep(stmtList, i);
        var _ := RDS_FreeStmt(stmtList[i], SQL_DROP, SQL_SUCCESS);
      }
      assert stmtList[..|stmtList|] == stmtList;
    }

    method DropDescriptors(handle: Handle)
      requires Sound(View()) && handle in dbcs
      modifies this
      ensures Sound(View())
      ensures View() == DropDescs(old(View()), Elements(old(dbcs)[handle].descList))
    {
      hide Sound, DropDescs;
      var descList := dbcs[handle].descList;
      ghost var before := View();
      ListedDescsLive(before, handle);
      DropNoDescs(before);
      for i := 0 to |descList|
        invariant Sound(View())
        invariant View() == DropDescs(before, Elements(descList[..i]))
      {
        DropDescsLeaves(before, handle, i);
        DropDescsTwice(before, Elements(descList[..i]), {descList[i]});
        ElementsStep(descList, i);
        var _ := RDS_FreeDesc(descList[i]);
      }
      assert descList[..|descList|] == descList;
    }

    // SQLDisconnect drops the statements, keeps the descriptors and asks the driver to disconnect.
    method SQLDisconnect(handle: Handle, answer: SqlReturn) returns (ret: SqlReturn)
      requires Valid(View()) && (handle != 0 ==> handle in dbcs)
      modifies this
      ensures Valid(View())
      ensures handle == 0 ==> ret == SQL_INVALID_HANDLE && View() == old(View())
      ensures handle != 0 ==> View() == DropStmts(old(View()), Elements(old(dbcs)[handle].stmtList))
      ensures handle != 0 ==> ret == if old(dbcs)[handle].wrapped then answer else SQL_INVALID_HANDLE
    {
      hide Valid, Sound, DropStmts;
      if handle == 0 {
        return SQL_INVALID_HANDLE;
      }
      ghost var before := View();
      ValidIsSound(before);
      DropStmtsKeepsValid(before, Elements(dbcs[handle].stmtList));
      DropStmtsKeepsDbcs(before, Elements(dbcs[handle].stmtList), handle);
      DropStatements(handle);
      return if dbcs[handle].wrapped then answer else SQL_INVALID_HANDLE;
    }

    /** Frees the connection and everything below it, and nothing else. */
    method RDS_FreeConnect(handle: Handle) returns (ret: SqlReturn)
      requires Valid(View()) && (handle != 0 ==> handle in dbcs)
      modifies this
      ensures Valid(View())
      ensures handle == 0 ==> ret == SQL_INVALID_HANDLE && View() == old(View())
      ensures handle != 0 ==> ret == SQL_SUCCESS && View() == Prune(old(View()), {handle})
    {
      hide Valid, Sound, DropStmts, DropDescs, Prune;
      if handle == 0 {
        return SQL_INVALID_HANDLE;
      }
      ghost var before := View();
      LiveDbc(before, handle);
      DetachKeepsSound(before, handle);
      FreeConnectIsPrune(before, handle);
      PruneKeepsValid(before, {handle});
      var env := dbcs[handle].env;
      envs := envs[env := envs[env].(dbcList := Without(envs[env].dbcList, {handle}))];
      assert View() == Detach(before, handle);
      DropStatements(handle);
      DropStmtsKeepsDbcs(Detach(before, handle), Elements(before.dbcs[handle].stmtList), handle);
      DropDescriptors(handle);
      dbcs := dbcs - {handle};
      return SQL_SUCCESS;
    }

    /** Frees the environment: afterwards it has no live handle below it, and every statement and descriptor
        handle the driver ever gave out for it has been given back, or was forgotten by a disconnect without
        a driver. */
    method RDS_FreeEnv(handle: Handle) returns (ret: SqlReturn)
      requires Valid(View()) && (handle != 0 ==> handle in envs)
      modifies this
      ensures Valid(View())
      ensures handle == 0 ==> ret == SQL_INVALID_HANDLE && View() == old(View())
      ensures handle != 0 ==> ret == SQL_SUCCESS && View() == FreedEnv(old(View()), handle)
    {
      hide Valid, Prune;
      if handle == 0 {
        return SQL_INVALID_HANDLE;
      }
      var dbcList := envs[handle].dbcList;
      ghost var before := View();
      ListedDbcsLive(before, handle);
      PruneNone(before);
      for i := 0 to |dbcList|
        invariant Valid(View())
        invariant View() == Prune(before, Elements(dbcList[..i]))
      {
        PruneLeaves(before, handle, i);
        PruneTwice(before, Elements(dbcList[..i]), {dbcList[i]});
        ElementsStep(dbcList, i);
        var _ := RDS_FreeConnect(dbcList[i]);
      }
      assert dbcList[..|dbcList|] == dbcList;
      FreedEnvKeepsValid(before, handle);
      envs := envs - {handle};
      return SQL_SUCCESS;
    }
  }

  lemma LiveStmt(h: Heap, s: Handle)
    requires Sound(h) && s in h.stmts
    ensures h.stmts[s].dbc in h.dbcs
    ensures h.stmts[s].wrapped.Some? ==> h.stmts[s].wrapped.value in h.issued && h.stmts[s].wrapped.value !in h.released
  {
    assert StmtOk(h, s);
    if h.stmts[s].wrapped.Some? {
      assert Wraps(h, StmtRef(s), h.stmts[s].wrapped.value);
    }
  }

  lemma LiveDesc(h: Heap, x: Handle)
    requires Sound(h) && x in h.descs
    ensures h.descs[x].dbc in h.dbcs
    ensures h.descs[x].wrapped.Some? ==> h.descs[x].wrapped.value in h.issued && h.descs[x].wrapped.value !in h.released
    ensures forall u :: u in h.issued && WrappedByDesc(h, {x}, u) <==> h.descs[x].wrapped == Some(u)
  {
    assert DescOk(h, x);
    if h.descs[x].wrapped.Some? {
      assert Wraps(h, DescRef(x), h.descs[x].wrapped.value);
    }
  }

  lemma UnwrapNothing(h: Heap, loaded: bool)
    ensures UnwrapStmts(h, Elements([]), loaded) == h && UnwrapDescs(h, Elements([]), loaded) == h
  {
    assert Elements([]) == {};
  }

  lemma UnwrapKeepsHandles(h: Heap, ss: set<Handle>, xs: set<Handle>, loaded: bool)
    ensures UnwrapStmts(h, ss, loaded).dbcs == h.dbcs && UnwrapDescs(h, xs, loaded).dbcs == h.dbcs
    ensures UnwrapStmts(h, ss, loaded).stmts.Keys == h.stmts.Keys && UnwrapStmts(h, ss, loaded).descs == h.descs
    ensures UnwrapDescs(h, xs, loaded).descs.Keys == h.descs.Keys
  {
  }

  lemma DropOneDbcs(h: Heap, s: Handle)
    requires Forest(h) && s in h.stmts && h.stmts[s].dbc in h.dbcs
    ensures var d := h.stmts[s].dbc;
      DropStmts(h, {s}).dbcs == h.dbcs[d := h.dbcs[d].(stmtList := Without(h.dbcs[d].stmtList, {s}))]
  {
    forall o | o in h.dbcs && o != h.stmts[s].dbc ensures Without(h.dbcs[o].stmtList, {s}) == h.dbcs[o].stmtList {
      assert DbcOk(h, o);
      WithoutNone(h.dbcs[o].stmtList, {s});
    }
  }

  lemma DropOneDescs(h: Heap, s: Handle)
    requires s in h.stmts
    ensures var stmt := h.stmts[s];
      DropStmts(h, {s}).descs == h.descs - {stmt.appRow} - {stmt.appParam} - {stmt.impRow} - {stmt.impParam}
  {
    forall x ensures ImplicitIn(h, {s}, x) <==> Owns(h.stmts[s], x) {
      if Owns(h.stmts[s], x) {
        assert ImplicitOf(h, s, x);
      }
    }
  }

  // What the statements of RDS_FreeStmt amount to.
  lemma DropOneStmt(h: Heap, s: Handle, h': Heap)
    requires Sound(h) && s in h.stmts && h.stmts[s].dbc in h.dbcs
    requires var stmt := h.stmts[s];
      h' == h.(dbcs := h.dbcs[stmt.dbc := h.dbcs[stmt.dbc].(stmtList := Without(h.dbcs[stmt.dbc].stmtList, {s}))],
               stmts := h.stmts - {s},
               descs := h.descs - {stmt.appRow} - {stmt.appParam} - {stmt.impRow} - {stmt.impParam},
               released := if stmt.wrapped.Some? then h.released + {stmt.wrapped.value} else h.released)
    ensures h' == DropStmts(h, {s})
  {
    DropOneDbcs(h, s);
    DropOneDescs(h, s);
    DropOneReleased(h, s);
    hide Sound;
  }

  lemma DropOneReleased(h: Heap, s: Handle)
    requires Sound(h) && s in h.stmts
    ensures DropStmts(h, {s}).released
            == if h.stmts[s].wrapped.Some? then h.released + {h.stmts[s].wrapped.value} else h.released
  {
    hide Sound;
    forall u ensures u in h.issued && WrappedByStmt(h, {s}, u) <==> h.stmts[s].wrapped == Some(u) {
      DropOneReleases(h, s, u);
    }
  }

  lemma DropOneReleases(h: Heap, s: Handle, u: Underlying)
    requires Sound(h) && s in h.stmts
    ensures u in h.issued && WrappedByStmt(h, {s}, u) <==> h.stmts[s].wrapped == Some(u)
  {
    if h.stmts[s].wrapped == Some(u) {
      assert Wraps(h, StmtRef(s), u);
    }
  }

  lemma DropOneDesc(h: Heap, x: Handle, h': Heap)
    requires Sound(h) && x in h.descs && h.descs[x].dbc in h.dbcs
    requires var desc := h.descs[x];
      h' == h.(dbcs := h.dbcs[desc.dbc := h.dbcs[desc.dbc].(descList := Without(h.dbcs[desc.dbc].descList, {x}))],
               descs := h.descs - {x},
               released := if desc.wrapped.Some? then h.released + {desc.wrapped.value} else h.released)
    ensures h' == DropDescs(h, {x})
  {
    hide Sound;
    DropOneDescDbcs(h, x);
    DropOneDescReleased(h, x);
  }

  lemma DropOneDescDbcs(h: Heap, x: Handle)
    requires Sound(h) && x in h.descs && h.descs[x].dbc in h.dbcs
    ensures var d := h.descs[x].dbc;
      DropDescs(h, {x}).dbcs == h.dbcs[d := h.dbcs[d].(descList := Without(h.dbcs[d].descList, {x}))]
  {
    forall o | o in h.dbcs && o != h.descs[x].dbc ensures Without(h.dbcs[o].descList, {x}) == h.dbcs[o].descList {
      assert DbcOk(h, o);
      WithoutNone(h.dbcs[o].descList, {x});
    }
  }

  lemma DropOneDescReleased(h: Heap, x: Handle)
    requires Sound(h) && x in h.descs
    ensures DropDescs(h, {x}).released
            == if h.descs[x].wrapped.Some? then h.released + {h.descs[x].wrapped.value} else h.released
  {
    hide Sound;
    LiveDesc(h, x);
  }

  lemma SoundIffExplicit(h: Heap, x: Handle)
    requires Sound(h) && x in h.descs
    ensures Sound(DropDescs(h, {x})) <==> Explicit(h, x)
  {
    if Explicit(h, x) {
      DropDescsKeepsSound(h, {x});
    } else {
      assert DescOk(h, x);
      var s :| ImplicitOf(h, s, x);
      assert !StmtOk(DropDescs(h, {x}), s);
    }
  }

  // ---------- the lists being swept ----------

  lemma ElementsStep(l: seq<Handle>, i: nat)
    requires i < |l|
    ensures Elements(l[..i]) + {l[i]} == Elements(l[..i + 1])
  {
    assert l[..i + 1] == l[..i] + [l[i]];
  }

  lemma ListedStmtsLive(h: Heap, d: Handle)
    requires Sound(h) && d in h.dbcs
    ensures Distinct(h.dbcs[d].stmtList) && 0 !in h.dbcs[d].stmtList
    ensures forall s :: s in h.dbcs[d].stmtList ==> s in h.stmts
  {
    assert DbcOk(h, d);
  }

  lemma DropNoStmts(h: Heap)
    ensures DropStmts(h, Elements([])) == h
  {
    assert Elements([]) == {};
    forall d | d in h.dbcs ensures Without(h.dbcs[d].stmtList, {}) == h.dbcs[d].stmtList {
      WithoutNone(h.dbcs[d].stmtList, {});
    }
  }

  lemma DropStmtsLeaves(h: Heap, l: seq<Handle>, i: nat)
    requires Distinct(l) && i < |l| && l[i] in h.stmts
    ensures l[i] in DropStmts(h, Elements(l[..i])).stmts
  {
  }

  lemma ListedDescsLive(h: Heap, d: Handle)
    requires Sound(h) && d in h.dbcs
    ensures Distinct(h.dbcs[d].descList) && 0 !in h.dbcs[d].descList
    ensures forall x :: x in h.dbcs[d].descList ==> x in h.descs
  {
    assert DbcOk(h, d);
  }

  lemma DropNoDescs(h: Heap)
    ensures DropDescs(h, Elements([])) == h
  {
    assert Elements([]) == {};
    forall d | d in h.dbcs ensures Without(h.dbcs[d].descList, {}) == h.dbcs[d].descList {
      WithoutNone(h.dbcs[d].descList, {});
    }
  }

  lemma DropDescsLeaves(h: Heap, d: Handle, i: nat)
    requires Sound(h) && d in h.dbcs && i < |h.dbcs[d].descList|
    ensures Explicit(DropDescs(h, Elements(h.dbcs[d].descList[..i])), h.dbcs[d].descList[i])
  {
    assert DbcOk(h, d);
    WithoutMembers(h.dbcs[d].descList, Elements(h.dbcs[d].descList[..i]));
  }

  lemma DropStmtsKeepsDbcs(h: Heap, gone: set<Handle>, d: Handle)
    requires d in h.dbcs
    ensures d in DropStmts(h, gone).dbcs
    ensures var d', dbc := DropStmts(h, gone).dbcs[d], h.dbcs[d]; d'.descList == dbc.descList && d'.wrapped == dbc.wrapped
  {
  }

  lemma ValidIsSound(h: Heap)
    requires Valid(h)
    ensures Sound(h)
  {
  }

  lemma LiveDbc(h: Heap, d: Handle)
    requires Valid(h) && d in h.dbcs
    ensures Sound(h) && h.dbcs[d].env in h.envs
  {
  }

  lemma ListedDbcsLive(h: Heap, e: Handle)
    requires Valid(h) && e in h.envs
    ensures Distinct(h.envs[e].dbcList) && 0 !in h.envs[e].dbcList
    ensures forall d :: d in h.envs[e].dbcList ==> d in h.dbcs
  {
    assert EnvOk(h, e);
  }

  lemma PruneNone(h: Heap)
    ensures Prune(h, Elements([])) == h
  {
    assert Elements([]) == {};
    forall e | e in h.envs ensures Without(h.envs[e].dbcList, {}) == h.envs[e].dbcList {
      WithoutNone(h.envs[e].dbcList, {});
    }
  }

  lemma PruneLeaves(h: Heap, e: Handle, i: nat)
    requires Valid(h) && e in h.envs && i < |h.envs[e].dbcList|
    ensures h.envs[e].dbcList[i] in Prune(h, Elements(h.envs[e].dbcList[..i])).dbcs
  {
    assert EnvOk(h, e);
  }
}
