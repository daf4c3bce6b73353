/**
 * Deleting handles: what each deletion leaves behind, as one declarative heap; that it keeps the tree and the
 * books; that deletions compose; and that the cascade of RDS_FreeConnect deletes exactly a subtree.
 */
module HandleDeletion {

  import opened Options
  import opened HandleTree

  // ---------- deleting statements ----------

  ghost predicate ImplicitIn(h: Heap, gone: set<Handle>, x: Handle) {
    exists s :: s in gone && ImplicitOf(h, s, x)
  }

  // The statements, their implicit descriptors and their list entries are gone; their underlying handles are
  // given back.
  ghost function DropStmts(h: Heap, gone: set<Handle>): Heap {
    h.(dbcs := map d | d in h.dbcs :: h.dbcs[d].(stmtList := Without(h.dbcs[d].stmtList, gone)),
       stmts := h.stmts - gone,
       descs := map x | x in h.descs && !ImplicitIn(h, gone, x) :: h.descs[x],
       released := h.released + set u | u in h.issued && WrappedByStmt(h, gone, u))
  }

  lemma ImplicitInIsPlain(h: Heap, gone: set<Handle>, x: Handle)
    requires Forest(h) && ImplicitIn(h, gone, x)
    ensures !Explicit(h, x) && x in h.descs && h.descs[x].wrapped.None?
  {
    var s :| s in gone && ImplicitOf(h, s, x);
    assert StmtOk(h, s);
  }

  lemma DropStmtsKeepsDbc(h: Heap, gone: set<Handle>, d: Handle)
    requires Forest(h) && d in h.dbcs
    ensures DbcOk(DropStmts(h, gone), d)
  {
    assert DbcOk(h, d);
    WithoutMembers(h.dbcs[d].stmtList, gone);
    forall x | x in h.dbcs[d].descList ensures !ImplicitIn(h, gone, x) {
      if ImplicitIn(h, gone, x) {
        ImplicitInIsPlain(h, gone, x);
      }
    }
  }

  lemma DropStmtsKeepsStmt(h: Heap, gone: set<Handle>, s: Handle)
    requires Forest(h) && s in h.stmts && s !in gone
    ensures StmtOk(DropStmts(h, gone), s)
  {
    assert StmtOk(h, s);
    WithoutMembers(h.dbcs[h.stmts[s].dbc].stmtList, gone);
    assert forall x :: Owns(h.stmts[s], x) ==> ImplicitOf(h, s, x);
  }

  lemma DropStmtsKeepsDesc(h: Heap, gone: set<Handle>, x: Handle)
    requires Forest(h) && x in h.descs && !ImplicitIn(h, gone, x)
    ensures DescOk(DropStmts(h, gone), x)
  {
    hide Forest, DescOk, StmtOk, DbcOk;
    ForestGives(h);
    DescHasDbc(h, x);
    DescStays(h, DropStmts(h, gone), x);
  }

  lemma DescHasDbc(h: Heap, x: Handle)
    requires x in h.descs && DescOk(h, x)
    ensures h.descs[x].dbc in h.dbcs
  {
  }

  lemma DropStmtsKeepsForest(h: Heap, gone: set<Handle>)
    requires Forest(h)
    ensures Forest(DropStmts(h, gone))
  {
    var h' := DropStmts(h, gone);
    forall d | d in h'.dbcs ensures DbcOk(h', d) { DropStmtsKeepsDbc(h, gone, d); }
    forall s | s in h'.stmts ensures StmtOk(h', s) { DropStmtsKeepsStmt(h, gone, s); }
    forall x | x in h'.descs ensures DescOk(h', x) { DropStmtsKeepsDesc(h, gone, x); }
    assert forall s, x :: ImplicitOf(h', s, x) ==> ImplicitOf(h, s, x);
  }

  lemma DropStmtsWraps(h: Heap, gone: set<Handle>, r: Ref, u: Underlying)
    requires Forest(h)
    ensures Wraps(DropStmts(h, gone), r, u) <==> Wraps(h, r, u) && r !in StmtRefs(gone)
    ensures Wraps(DropStmts(h, gone), r, u) ==> DbcOf(DropStmts(h, gone), r) == DbcOf(h, r)
  {
    if r.DescRef? && ImplicitIn(h, gone, r.handle) {
      ImplicitInIsPlain(h, gone, r.handle);
    }
  }

  lemma DropStmtsLetsGo(h: Heap, gone: set<Handle>)
    requires Books(h) && Forest(h)
    ensures LetsGo(h, DropStmts(h, gone), StmtRefs(gone), true)
  {
    var h', refs := DropStmts(h, gone), StmtRefs(gone);
    forall r, u
      ensures Wraps(h', r, u) <==> Wraps(h, r, u) && r !in refs
      ensures Wraps(h', r, u) ==> DbcOf(h', r) == DbcOf(h, r)
    {
      DropStmtsWraps(h, gone, r, u);
    }
    forall u ensures u in h'.released <==> u in h.released || HeldIn(h, refs, u) { DropStmtsReleases(h, gone, u); }
  }

  lemma DropStmtsReleases(h: Heap, gone: set<Handle>, u: Underlying)
    requires Books(h)
    ensures u in DropStmts(h, gone).released <==> u in h.released || HeldIn(h, StmtRefs(gone), u)
  {
    WrappedByStmtIsHeld(h, gone, u);
  }

  lemma DropStmtsKeepsBooks(h: Heap, gone: set<Handle>)
    requires Books(h) && Forest(h)
    ensures Books(DropStmts(h, gone))
  {
    DropStmtsLetsGo(h, gone);
    LettingGoKeepsBooks(h, DropStmts(h, gone), StmtRefs(gone), true);
  }

  lemma DropStmtsKeepsSound(h: Heap, gone: set<Handle>)
    requires Sound(h)
    ensures Sound(DropStmts(h, gone))
  {
    DropStmtsKeepsForest(h, gone);
    DropStmtsKeepsBooks(h, gone);
  }

  lemma DropStmtsTwice(h: Heap, gone: set<Handle>, more: set<Handle>)
    ensures DropStmts(DropStmts(h, gone), more) == DropStmts(h, gone + more)
  {
    hide ImplicitIn, WrappedByStmt;
    forall d | d in h.dbcs
      ensures Without(Without(h.dbcs[d].stmtList, gone), more) == Without(h.dbcs[d].stmtList, gone + more)
    {
      WithoutTwice(h.dbcs[d].stmtList, gone, more);
    }
    var h' := DropStmts(h, gone);
    assert h'.stmts - more == h.stmts - (gone + more);
    forall x ensures ImplicitIn(h, gone + more, x) <==> ImplicitIn(h, gone, x) || ImplicitIn(h', more, x) {
      ImplicitInBoth(h, gone, more, x);
    }
    forall u ensures WrappedByStmt(h, gone + more, u) <==> WrappedByStmt(h, gone, u) || WrappedByStmt(h', more, u) {
      WrappedByBoth(h, gone, more, u);
    }
  }

  lemma ImplicitInBoth(h: Heap, gone: set<Handle>, more: set<Handle>, x: Handle)
    ensures ImplicitIn(h, gone + more, x) <==> ImplicitIn(h, gone, x) || ImplicitIn(DropStmts(h, gone), more, x)
  {
    if ImplicitIn(h, gone + more, x) {
      var s :| s in gone + more && ImplicitOf(h, s, x);
      assert s in gone || ImplicitOf(DropStmts(h, gone), s, x);
    }
  }

  lemma WrappedByBoth(h: Heap, gone: set<Handle>, more: set<Handle>, u: Underlying)
    ensures WrappedByStmt(h, gone + more, u) <==> WrappedByStmt(h, gone, u) || WrappedByStmt(DropStmts(h, gone), more, u)
  {
    if WrappedByStmt(h, gone + more, u) {
      var s :| s in gone + more && Wraps(h, StmtRef(s), u);
      assert s in gone || Wraps(DropStmts(h, gone), StmtRef(s), u);
    }
  }

  // ---------- deleting explicit descriptors ----------

  ghost function DropDescs(h: Heap, gone: set<Handle>): Heap {
    h.(dbcs := map d | d in h.dbcs :: h.dbcs[d].(descList := Without(h.dbcs[d].descList, gone)),
       descs := h.descs - gone,
       released := h.released + set u | u in h.issued && WrappedByDesc(h, gone, u))
  }

  ghost predicate AllExplicit(h: Heap, xs: set<Handle>) { forall x :: x in xs ==> Explicit(h, x) }

  lemma ExplicitIsNotImplicit(h: Heap, s: Handle, x: Handle)
    requires Forest(h)
    ensures !(Explicit(h, x) && ImplicitOf(h, s, x))
  {
    if s in h.stmts {
      assert StmtOk(h, s);
    }
  }

  lemma DropDescsKeepsStmt(h: Heap, gone: set<Handle>, s: Handle)
    requires Forest(h) && AllExplicit(h, gone) && s in h.stmts
    ensures StmtOk(DropDescs(h, gone), s)
  {
    assert StmtOk(h, s);
    WithoutMembers(h.dbcs[h.stmts[s].dbc].descList, gone);
    forall x | Owns(h.stmts[s], x) ensures x !in gone {
      ExplicitIsNotImplicit(h, s, x);
    }
  }

  lemma DropDescsKeepsForest(h: Heap, gone: set<Handle>)
    requires Forest(h) && AllExplicit(h, gone)
    ensures Forest(DropDescs(h, gone))
  {
    var h' := DropDescs(h, gone);
    forall d | d in h'.dbcs ensures DbcOk(h', d) {
      assert DbcOk(h, d);
      WithoutMembers(h.dbcs[d].descList, gone);
    }
    forall s | s in h'.stmts ensures StmtOk(h', s) { DropDescsKeepsStmt(h, gone, s); }
    forall x | x in h'.descs ensures DescOk(h', x) {
      assert DescOk(h, x);
      if Explicit(h, x) {
        WithoutMembers(h.dbcs[h.descs[x].dbc].descList, gone);
      } else {
        var s :| ImplicitOf(h, s, x);
        assert ImplicitOf(h', s, x);
      }
    }
    assert forall s, x :: ImplicitOf(h', s, x) ==> ImplicitOf(h, s, x);
  }

  lemma DropDescsKeepsBooks(h: Heap, gone: set<Handle>)
    requires Books(h)
    ensures Books(DropDescs(h, gone))
  {
    forall u ensures WrappedByDesc(h, gone, u) <==> HeldIn(h, DescRefs(gone), u) {
      WrappedByDescIsHeld(h, gone, u);
    }
    LettingGoKeepsBooks(h, DropDescs(h, gone), DescRefs(gone), true);
  }

  lemma DropDescsKeepsSound(h: Heap, gone: set<Handle>)
    requires Sound(h) && AllExplicit(h, gone)
    ensures Sound(DropDescs(h, gone))
  {
    DropDescsKeepsForest(h, gone);
    DropDescsKeepsBooks(h, gone);
  }

  lemma DropDescsTwice(h: Heap, gone: set<Handle>, more: set<Handle>)
    ensures DropDescs(DropDescs(h, gone), more) == DropDescs(h, gone + more)
  {
    forall d | d in h.dbcs
      ensures Without(Without(h.dbcs[d].descList, gone), more) == Without(h.dbcs[d].descList, gone + more)
    {
      WithoutTwice(h.dbcs[d].descList, gone, more);
    }
    var h' := DropDescs(h, gone);
    assert h'.descs - more == h.descs - (gone + more);
    forall u ensures WrappedByDesc(h, gone + more, u) <==> WrappedByDesc(h, gone, u) || WrappedByDesc(h', more, u) {
      if WrappedByDesc(h, gone + more, u) {
        var x :| x in gone + more && Wraps(h, DescRef(x), u);
        assert x in gone || Wraps(h', DescRef(x), u);
      }
    }
  }

  lemma DropStmtsKeepsValid(h: Heap, gone: set<Handle>)
    requires Valid(h)
    ensures Valid(DropStmts(h, gone))
  {
    SameEnvOfKeepsEnvs(h, DropStmts(h, gone));
    DropStmtsKeepsSound(h, gone);
    hide Forest, Books;
  }

  lemma DropDescsKeepsValid(h: Heap, gone: set<Handle>)
    requires Valid(h) && AllExplicit(h, gone)
    ensures Valid(DropDescs(h, gone))
  {
    SameEnvOfKeepsEnvs(h, DropDescs(h, gone));
    DropDescsKeepsSound(h, gone);
    hide Forest, Books;
  }

  // ---------- deleting connections with everything below them ----------

  ghost function StmtsOf(h: Heap, ds: set<Handle>): set<Handle> { set s | s in h.stmts && h.stmts[s].dbc in ds }

  ghost function DescsOf(h: Heap, ds: set<Handle>): set<Handle> { set x | x in h.descs && h.descs[x].dbc in ds }

  ghost predicate HeldBelow(h: Heap, ds: set<Handle>, u: Underlying) {
    exists r :: Wraps(h, r, u) && DbcOf(h, r) in ds
  }

  ghost function Prune(h: Heap, ds: set<Handle>): Heap {
    h.(envs := map e | e in h.envs :: h.envs[e].(dbcList := Without(h.envs[e].dbcList, ds)),
       dbcs := h.dbcs - ds, stmts := h.stmts - StmtsOf(h, ds), descs := h.descs - DescsOf(h, ds),
       released := h.released + set u | u in h.issued && HeldBelow(h, ds, u))
  }

  lemma PruneKeepsStmt(h: Heap, ds: set<Handle>, s: Handle)
    requires Forest(h) && s in h.stmts && h.stmts[s].dbc !in ds
    ensures StmtOk(Prune(h, ds), s)
  {
    assert StmtOk(h, s);
  }

  lemma PruneKeepsDesc(h: Heap, ds: set<Handle>, x: Handle)
    requires Forest(h) && x in h.descs && h.descs[x].dbc !in ds
    ensures DescOk(Prune(h, ds), x)
  {
    hide Forest, DescOk, StmtOk, DbcOk;
    ForestGives(h);
    DescHasDbc(h, x);
    forall s | ImplicitOf(h, s, x) ensures h.stmts[s].dbc == h.descs[x].dbc {
      OwnerHasSameDbc(h, s, x);
    }
    DescStays(h, Prune(h, ds), x);
  }

  lemma OwnerHasSameDbc(h: Heap, s: Handle, x: Handle)
    requires ImplicitOf(h, s, x) && StmtOk(h, s) && x in h.descs
    ensures h.stmts[s].dbc == h.descs[x].dbc
  {
  }

  lemma PruneKeepsForest(h: Heap, ds: set<Handle>)
    requires Forest(h)
    ensures Forest(Prune(h, ds))
  {
    var h' := Prune(h, ds);
    forall d | d in h'.dbcs ensures DbcOk(h', d) { assert DbcOk(h, d); }
    forall s | s in h'.stmts ensures StmtOk(h', s) { PruneKeepsStmt(h, ds, s); }
    forall x | x in h'.descs ensures DescOk(h', x) { PruneKeepsDesc(h, ds, x); }
    assert forall s, x :: ImplicitOf(h', s, x) ==> ImplicitOf(h, s, x);
  }

  lemma PruneKeepsTree(h: Heap, ds: set<Handle>)
    requires Tree(h)
    ensures Tree(Prune(h, ds))
  {
    var h' := Prune(h, ds);
    PruneKeepsForest(h, ds);
    forall e | e in h'.envs ensures EnvOk(h', e) {
      assert EnvOk(h, e);
      WithoutMembers(h.envs[e].dbcList, ds);
    }
    forall d | d in h'.dbcs ensures d in h'.envs[h.dbcs[d].env].dbcList {
      WithoutMembers(h.envs[h.dbcs[d].env].dbcList, ds);
    }
  }

  lemma PruneKeepsBooks(h: Heap, ds: set<Handle>)
    requires Books(h)
    ensures Books(Prune(h, ds))
  {
    var h' := Prune(h, ds);
    assert forall r, u :: Wraps(h', r, u) <==> Wraps(h, r, u) && DbcOf(h, r) !in ds;
    forall u | Outstanding(h', u) ensures exists r :: Wraps(h', r, u) {
      assert Outstanding(h, u);
      var r :| Wraps(h, r, u);
      assert Wraps(h', r, u);
    }
    forall u | HeldBelow(h, ds, u) ensures Outstanding(h, u) {
      var r :| Wraps(h, r, u) && DbcOf(h, r) in ds;
    }
  }

  /** Deleting connections, with everything below them and nothing else, keeps the tree and the books. */
  lemma PruneKeepsValid(h: Heap, ds: set<Handle>)
    requires Valid(h)
    ensures Valid(Prune(h, ds))
  {
    PruneKeepsTree(h, ds);
    PruneKeepsBooks(h, ds);
  }

  lemma PruneTwice(h: Heap, ds: set<Handle>, more: set<Handle>)
    ensures Prune(Prune(h, ds), more) == Prune(h, ds + more)
  {
    hide HeldBelow;
    var h' := Prune(h, ds);
    forall e | e in h.envs
      ensures Without(Without(h.envs[e].dbcList, ds), more) == Without(h.envs[e].dbcList, ds + more)
    {
      WithoutTwice(h.envs[e].dbcList, ds, more);
    }
    assert h'.dbcs - more == h.dbcs - (ds + more);
    assert h'.stmts - StmtsOf(h', more) == h.stmts - StmtsOf(h, ds + more);
    assert h'.descs - DescsOf(h', more) == h.descs - DescsOf(h, ds + more);
    forall u ensures HeldBelow(h, ds + more, u) <==> HeldBelow(h, ds, u) || HeldBelow(h', more, u) {
      HeldBelowBoth(h, ds, more, u);
    }
  }

  lemma HeldBelowBoth(h: Heap, ds: set<Handle>, more: set<Handle>, u: Underlying)
    ensures HeldBelow(h, ds + more, u) <==> HeldBelow(h, ds, u) || HeldBelow(Prune(h, ds), more, u)
  {
    var h' := Prune(h, ds);
    if HeldBelow(h, ds + more, u) {
      var r :| Wraps(h, r, u) && DbcOf(h, r) in ds + more;
      assert DbcOf(h, r) in ds || Wraps(h', r, u);
    }
    if HeldBelow(h', more, u) {
      var r :| Wraps(h', r, u) && DbcOf(h', r) in more;
      assert Wraps(h, r, u);
    }
  }

  // ---------- RDS_FreeConnect, step by step ----------

  ghost function Detach(h: Heap, d: Handle): Heap
    requires d in h.dbcs && h.dbcs[d].env in h.envs
  {
    var e := h.dbcs[d].env;
    h.(envs := h.envs[e := h.envs[e].(dbcList := Without(h.envs[e].dbcList, {d}))])
  }

  lemma DetachKeepsSound(h: Heap, d: Handle)
    requires Sound(h) && d in h.dbcs && h.dbcs[d].env in h.envs
    ensures Sound(Detach(h, d))
  {
    SameBelow(h, Detach(h, d));
    DetachKeepsBooks(h, d);
  }

  lemma DetachKeepsBooks(h: Heap, d: Handle)
    requires Books(h) && d in h.dbcs && h.dbcs[d].env in h.envs
    ensures Books(Detach(h, d))
  {
    var h' := Detach(h, d);
    assert forall r, u :: Wraps(h', r, u) <==> Wraps(h, r, u);
    forall u | Outstanding(h', u) ensures exists r :: Wraps(h', r, u) {
      assert Outstanding(h, u);
      var r :| Wraps(h, r, u);
      assert Wraps(h', r, u);
    }
  }

  // RDS_FreeConnect: detach, drop the statements, drop the explicit descriptors, delete.
  ghost function FreeConnectSteps(h: Heap, d: Handle): Heap
    requires d in h.dbcs && h.dbcs[d].env in h.envs
  {
    var dropped := DropStmts(Detach(h, d), Elements(h.dbcs[d].stmtList));
    var cleared := DropDescs(dropped, Elements(h.dbcs[d].descList));
    cleared.(dbcs := cleared.dbcs - {d})
  }

  lemma ListsCoverSubtree(h: Heap, d: Handle)
    requires Forest(h) && d in h.dbcs
    ensures Elements(h.dbcs[d].stmtList) == StmtsOf(h, {d})
    ensures forall x :: x in h.descs ==>
      (h.descs[x].dbc == d <==> x in h.dbcs[d].descList || ImplicitIn(h, StmtsOf(h, {d}), x))
  {
    assert DbcOk(h, d);
    forall s | s in StmtsOf(h, {d}) ensures s in h.dbcs[d].stmtList { assert StmtOk(h, s); }
    forall x | x in h.descs && h.descs[x].dbc == d && x !in h.dbcs[d].descList
      ensures ImplicitIn(h, StmtsOf(h, {d}), x)
    {
      assert DescOk(h, x);
      var s :| ImplicitOf(h, s, x);
      assert StmtOk(h, s);
    }
    forall x | ImplicitIn(h, StmtsOf(h, {d}), x) ensures x in h.descs && h.descs[x].dbc == d {
      var s :| s in StmtsOf(h, {d}) && ImplicitOf(h, s, x);
      assert StmtOk(h, s);
    }
  }

  lemma OtherListsUntouched(h: Heap, d: Handle, other: Handle)
    requires Forest(h) && d in h.dbcs && other in h.dbcs && other != d
    ensures Without(h.dbcs[other].stmtList, Elements(h.dbcs[d].stmtList)) == h.dbcs[other].stmtList
    ensures Without(h.dbcs[other].descList, Elements(h.dbcs[d].descList)) == h.dbcs[other].descList
  {
    assert DbcOk(h, d) && DbcOk(h, other);
    WithoutNone(h.dbcs[other].stmtList, Elements(h.dbcs[d].stmtList));
    WithoutNone(h.dbcs[other].descList, Elements(h.dbcs[d].descList));
  }

  lemma OtherEnvsUntouched(h: Heap, d: Handle, e: Handle)
    requires Tree(h) && d in h.dbcs && e in h.envs && e != h.dbcs[d].env
    ensures Without(h.envs[e].dbcList, {d}) == h.envs[e].dbcList
  {
    assert EnvOk(h, e);
    WithoutNone(h.envs[e].dbcList, {d});
  }

  lemma DetachCommutes(h: Heap, d: Handle, gone: set<Handle>)
    requires d in h.dbcs && h.dbcs[d].env in h.envs
    ensures DropStmts(Detach(h, d), gone) == Detach(DropStmts(h, gone), d)
  {
    var h' := Detach(h, d);
    assert forall s, x :: ImplicitOf(h', s, x) <==> ImplicitOf(h, s, x);
    assert forall x :: ImplicitIn(h', gone, x) <==> ImplicitIn(h, gone, x);
    assert forall s, u :: Wraps(h', StmtRef(s), u) <==> Wraps(h, StmtRef(s), u);
    assert forall u :: WrappedByStmt(h', gone, u) <==> WrappedByStmt(h, gone, u);
  }

  // What is held below a connection is held by its statements or by its explicit descriptors.
  lemma HeldBelowSplits(h: Heap, d: Handle, u: Underlying)
    requires Forest(h) && d in h.dbcs && HeldBelow(h, {d}, u)
    ensures WrappedByStmt(h, Elements(h.dbcs[d].stmtList), u) || WrappedByDesc(h, Elements(h.dbcs[d].descList), u)
  {
    ListsCoverSubtree(h, d);
    var r :| Wraps(h, r, u) && DbcOf(h, r) == d;
    if r.DescRef? && r.handle !in h.dbcs[d].descList {
      ImplicitInIsPlain(h, StmtsOf(h, {d}), r.handle);
    }
  }

  lemma HeldBelowJoins(h: Heap, d: Handle, u: Underlying)
    requires Forest(h) && d in h.dbcs
    requires WrappedByStmt(h, Elements(h.dbcs[d].stmtList), u) || WrappedByDesc(h, Elements(h.dbcs[d].descList), u)
    ensures HeldBelow(h, {d}, u)
  {
    assert DbcOk(h, d);
    if WrappedByStmt(h, Elements(h.dbcs[d].stmtList), u) {
      var s :| s in Elements(h.dbcs[d].stmtList) && Wraps(h, StmtRef(s), u);
      assert DbcOf(h, StmtRef(s)) == d;
    } else {
      var x :| x in Elements(h.dbcs[d].descList) && Wraps(h, DescRef(x), u);
      assert DbcOf(h, DescRef(x)) == d;
    }
  }

  lemma ExplicitSurviveStmts(h: Heap, d: Handle, gone: set<Handle>, u: Underlying)
    requires Forest(h) && d in h.dbcs
    ensures WrappedByDesc(DropStmts(h, gone), Elements(h.dbcs[d].descList), u)
            <==> WrappedByDesc(h, Elements(h.dbcs[d].descList), u)
  {
    var xs := Elements(h.dbcs[d].descList);
    if WrappedByDesc(h, xs, u) {
      var x :| x in xs && Wraps(h, DescRef(x), u);
      DropStmtsWraps(h, gone, DescRef(x), u);
    }
    if WrappedByDesc(DropStmts(h, gone), xs, u) {
      var x :| x in xs && Wraps(DropStmts(h, gone), DescRef(x), u);
      DropStmtsWraps(h, gone, DescRef(x), u);
    }
  }

  lemma FreeConnectReleases(h: Heap, d: Handle)
    requires Valid(h) && d in h.dbcs
    ensures DropDescs(DropStmts(h, Elements(h.dbcs[d].stmtList)), Elements(h.dbcs[d].descList)).released
            == Prune(h, {d}).released
  {
    var ss, xs := Elements(h.dbcs[d].stmtList), Elements(h.dbcs[d].descList);
    forall u
      ensures HeldBelow(h, {d}, u) <==> WrappedByStmt(h, ss, u) || WrappedByDesc(DropStmts(h, ss), xs, u)
    {
      ExplicitSurviveStmts(h, d, ss, u);
      if HeldBelow(h, {d}, u) {
        HeldBelowSplits(h, d, u);
      }
      if WrappedByStmt(h, ss, u) || WrappedByDesc(h, xs, u) {
        HeldBelowJoins(h, d, u);
      }
    }
  }

  lemma FreeConnectDbcs(h: Heap, d: Handle)
    requires Forest(h) && d in h.dbcs
    ensures var cleared := DropDescs(DropStmts(h, Elements(h.dbcs[d].stmtList)), Elements(h.dbcs[d].descList));
      cleared.dbcs - {d} == h.dbcs - {d}
  {
    forall o | o in h.dbcs && o != d
      ensures Without(h.dbcs[o].stmtList, Elements(h.dbcs[d].stmtList)) == h.dbcs[o].stmtList
      ensures Without(h.dbcs[o].descList, Elements(h.dbcs[d].descList)) == h.dbcs[o].descList
    {
      OtherListsUntouched(h, d, o);
    }
  }

  lemma FreeConnectEnvs(h: Heap, d: Handle)
    requires Tree(h) && d in h.dbcs
    ensures Detach(h, d).envs == Prune(h, {d}).envs
  {
    forall e | e in h.envs && e != h.dbcs[d].env ensures Without(h.envs[e].dbcList, {d}) == h.envs[e].dbcList {
      OtherEnvsUntouched(h, d, e);
    }
  }

  lemma FreeConnectDescs(h: Heap, d: Handle, ss: set<Handle>, xs: set<Handle>)
    requires Forest(h) && d in h.dbcs && ss == Elements(h.dbcs[d].stmtList) && xs == Elements(h.dbcs[d].descList)
    ensures DropStmts(h, ss).descs - xs == h.descs - DescsOf(h, {d})
  {
    assert forall x :: x in h.descs ==> (x in DescsOf(h, {d}) <==> x in xs || ImplicitIn(h, ss, x)) by {
      ListsCoverSubtree(h, d);
    }
  }

  lemma DetachCommutesDescs(h: Heap, d: Handle, gone: set<Handle>)
    requires d in h.dbcs && h.dbcs[d].env in h.envs
    ensures DropDescs(Detach(h, d), gone) == Detach(DropDescs(h, gone), d)
  {
    assert forall x, u :: Wraps(Detach(h, d), DescRef(x), u) <==> Wraps(h, DescRef(x), u);
    assert forall u :: WrappedByDesc(Detach(h, d), gone, u) <==> WrappedByDesc(h, gone, u);
  }

  /** The cascade of RDS_FreeConnect deletes the connection's subtree: nothing less, nothing more. */
  lemma FreeConnectIsPrune(h: Heap, d: Handle)
    requires Valid(h) && d in h.dbcs
    ensures FreeConnectSteps(h, d) == Prune(h, {d})
  {
    var ss, xs := Elements(h.dbcs[d].stmtList), Elements(h.dbcs[d].descList);
    var dropped := DropStmts(h, ss);
    var cleared := DropDescs(dropped, xs);
    DetachCommutes(h, d, ss);
    DetachCommutesDescs(dropped, d, xs);
    var steps, pruned := FreeConnectSteps(h, d), Prune(h, {d});
    assert steps == Detach(cleared, d).(dbcs := cleared.dbcs - {d});
    assert steps.envs == pruned.envs by { FreeConnectEnvs(h, d); }
    assert steps.dbcs == pruned.dbcs by { FreeConnectDbcs(h, d); }
    assert steps.stmts == pruned.stmts by { ListsCoverSubtree(h, d); }
    assert steps.descs == pruned.descs by { FreeConnectDescs(h, d, ss, xs); }
    assert steps.released == pruned.released by { FreeConnectReleases(h, d); }
  }

  // ---------- RDS_FreeEnv ----------

  // Every connection of the environment pruned, and the environment gone.
  ghost function FreedEnv(h: Heap, e: Handle): Heap
    requires e in h.envs
  {
    var pruned := Prune(h, Elements(h.envs[e].dbcList));
    pruned.(envs := pruned.envs - {e})
  }

  lemma FreedEnvHasNoDbc(h: Heap, e: Handle, d: Handle)
    requires Tree(h) && e in h.envs && d in FreedEnv(h, e).dbcs
    ensures h.dbcs[d].env != e
  {
    assert d in h.envs[h.dbcs[d].env].dbcList;
  }

  lemma FreedEnvKeepsForest(h: Heap, e: Handle)
    requires Tree(h) && e in h.envs
    ensures Forest(FreedEnv(h, e))
  {
    var ds, h' := Elements(h.envs[e].dbcList), FreedEnv(h, e);
    PruneKeepsForest(h, ds);
    forall d | d in h'.dbcs ensures DbcOk(h', d) {
      assert DbcOk(Prune(h, ds), d);
      FreedEnvHasNoDbc(h, e, d);
    }
    forall s | s in h'.stmts ensures StmtOk(h', s) { assert StmtOk(Prune(h, ds), s); }
    forall x | x in h'.descs ensures DescOk(h', x) { SameDesc(Prune(h, ds), h', x); }
    assert forall s, x :: ImplicitOf(h', s, x) ==> ImplicitOf(Prune(h, ds), s, x);
  }

  lemma FreedEnvKeepsTree(h: Heap, e: Handle)
    requires Tree(h) && e in h.envs
    ensures Tree(FreedEnv(h, e))
  {
    var ds, h' := Elements(h.envs[e].dbcList), FreedEnv(h, e);
    FreedEnvKeepsForest(h, e);
    PruneKeepsTree(h, ds);
    hide Forest, Prune;
    forall x | x in h'.envs ensures EnvOk(h', x) { assert EnvOk(Prune(h, ds), x); }
    forall d | d in h'.dbcs ensures h'.dbcs[d].env in h'.envs { FreedEnvHasNoDbc(h, e, d); FreedEnvSameDbc(h, e, d); }
  }

  lemma FreedEnvSameDbc(h: Heap, e: Handle, d: Handle)
    requires e in h.envs && d in FreedEnv(h, e).dbcs
    ensures d in h.dbcs && FreedEnv(h, e).dbcs[d] == h.dbcs[d]
  {
  }

  lemma RemoveEnvKeepsBooks(h: Heap, e: Handle)
    requires Books(h) && forall d :: d in h.dbcs ==> h.dbcs[d].env != e
    ensures Books(h.(envs := h.envs - {e}))
  {
    var h' := h.(envs := h.envs - {e});
    assert forall r, u :: Wraps(h', r, u) <==> Wraps(h, r, u);
    forall u | Outstanding(h', u) ensures exists r :: Wraps(h', r, u) {
      assert Outstanding(h, u);
      var r :| Wraps(h, r, u);
      assert Wraps(h', r, u);
    }
    forall r, u | Wraps(h', r, u) ensures Outstanding(h', u) { assert Outstanding(h, u); }
  }

  lemma FreedEnvKeepsBooks(h: Heap, e: Handle)
    requires Tree(h) && Books(h) && e in h.envs
    ensures Books(FreedEnv(h, e))
  {
    var pruned := Prune(h, Elements(h.envs[e].dbcList));
    PruneKeepsBooks(h, Elements(h.envs[e].dbcList));
    forall d | d in pruned.dbcs ensures pruned.dbcs[d].env != e { FreedEnvHasNoDbc(h, e, d); }
    hide Tree, Books;
    RemoveEnvKeepsBooks(pruned, e);
  }

  lemma FreedEnvKeepsValid(h: Heap, e: Handle)
    requires Valid(h) && e in h.envs
    ensures Valid(FreedEnv(h, e))
  {
    FreedEnvKeepsTree(h, e);
    FreedEnvKeepsBooks(h, e);
    hide Tree, Books;
  }

  /** Once an environment is freed nothing live is left below it, and every underlying statement and explicit
      descriptor handle the driver gave out for it has been given back or, by a disconnect that had no driver
      to call, forgotten. */
  lemma FreedEnvLeavesNothing(h: Heap, e: Handle)
    requires Valid(h) && e in h.envs
    ensures var h' := FreedEnv(h, e);
      && (forall d :: d in h'.dbcs ==> h'.dbcs[d].env != e)
      && (forall s :: s in h'.stmts ==> h'.stmts[s].dbc in h'.dbcs)
      && (forall x :: x in h'.descs ==> h'.descs[x].dbc in h'.dbcs)
      && (forall u :: u in h'.issued && h'.issued[u] == e ==> u in h'.released || u in h'.orphaned)
  {
    var h' := FreedEnv(h, e);
    FreedEnvKeepsValid(h, e);
    forall d | d in h'.dbcs ensures h'.dbcs[d].env != e { FreedEnvHasNoDbc(h, e, d); FreedEnvSameDbc(h, e, d); }
    hide FreedEnv;
    forall s | s in h'.stmts ensures h'.stmts[s].dbc in h'.dbcs { assert StmtOk(h', s); }
    forall x | x in h'.descs ensures h'.descs[x].dbc in h'.dbcs { assert DescOk(h', x); }
    forall u | u in h'.issued && h'.issued[u] == e ensures !Outstanding(h', u) {
      assert forall r :: !Wraps(h', r, u);
    }
  }
}
