/**
 * The tree of ODBC handles, as a value: environments own connections, connections own statements and explicit
 * descriptors, statements own four implicit descriptors. Handles are addresses, so that deleting an object
 * removes its address and every later use of it would have to be proved live. Beside the tree stand the books
 * of the underlying driver: which statement and descriptor handles it gave out and which were given back.
 */
module HandleTree {

  import opened Options

  type Handle = nat        // 0 is the null handle
  type Underlying = nat    // a statement or descriptor handle of the underlying driver

  datatype Env = Env(dbcList: seq<Handle>, loader: bool)
  datatype Dbc = Dbc(env: Handle, stmtList: seq<Handle>, descList: seq<Handle>, wrapped: bool)
  datatype Stmt = Stmt(dbc: Handle, wrapped: Option<Underlying>,
                       appRow: Handle, appParam: Handle, impRow: Handle, impParam: Handle)
  datatype Desc = Desc(dbc: Handle, wrapped: Option<Underlying>)

  datatype Heap = Heap(
    envs: map<Handle, Env>, dbcs: map<Handle, Dbc>, stmts: map<Handle, Stmt>, descs: map<Handle, Desc>,
    next: Handle,                       // the next free address
    issued: map<Underlying, Handle>,    // underlying handles given out, with the environment they belong to
    released: set<Underlying>,          // given back through SQLFreeHandle
    orphaned: set<Underlying>)          // forgotten by a disconnect that had no driver to call

  const EMPTY := Heap(map[], map[], map[], map[], 1, map[], {}, {})

  predicate Owns(s: Stmt, x: Handle) { x == s.appRow || x == s.appParam || x == s.impRow || x == s.impParam }

  // ---------- lists ----------

  function Elements(l: seq<Handle>): set<Handle> { set x | x in l }

  predicate Distinct(l: seq<Handle>) { forall i, j :: 0 <= i < j < |l| ==> l[i] != l[j] }

  lemma AppendDistinct(l: seq<Handle>, x: Handle)
    requires Distinct(l) && x !in l
    ensures Distinct(l + [x]) && forall y :: y in l + [x] <==> y in l || y == x
  {
  }

  // std::list::remove takes every occurrence out.
  function Without(l: seq<Handle>, gone: set<Handle>): seq<Handle> {
    if l == [] then [] else if l[0] in gone then Without(l[1..], gone) else [l[0]] + Without(l[1..], gone)
  }

  lemma {:induction false} WithoutMembers(l: seq<Handle>, gone: set<Handle>)
    ensures forall x :: x in Without(l, gone) <==> x in l && x !in gone
    ensures Distinct(l) ==> Distinct(Without(l, gone))
  {
    if l != [] {
      WithoutMembers(l[1..], gone);
      assert forall x :: x in l <==> x == l[0] || x in l[1..];
      if Distinct(l) {
        assert Distinct(l[1..]);
        assert l[0] !in l[1..];
      }
    }
  }

  lemma {:induction false} WithoutTwice(l: seq<Handle>, gone: set<Handle>, more: set<Handle>)
    ensures Without(Without(l, gone), more) == Without(l, gone + more)
  {
    if l != [] {
      WithoutTwice(l[1..], gone, more);
    }
  }

  lemma {:induction false} WithoutNone(l: seq<Handle>, gone: set<Handle>)
    requires forall x :: x in l ==> x !in gone
    ensures Without(l, gone) == l
  {
    if l != [] {
      WithoutNone(l[1..], gone);
    }
  }

  lemma {:induction false} WithoutAll(l: seq<Handle>, gone: set<Handle>)
    requires forall x :: x in l ==> x in gone
    ensures Without(l, gone) == []
  {
    if l != [] {
      WithoutAll(l[1..], gone);
    }
  }

  // ---------- the shape ----------

  ghost predicate EnvOk(h: Heap, e: Handle)
    requires e in h.envs
  {
    && Distinct(h.envs[e].dbcList)
    && (forall d :: d in h.envs[e].dbcList ==> d in h.dbcs && h.dbcs[d].env == e)
  }

  ghost predicate DbcOk(h: Heap, d: Handle)
    requires d in h.dbcs
  {
    var dbc := h.dbcs[d];
    && dbc.env in h.envs
    && Distinct(dbc.stmtList) && Distinct(dbc.descList)
    && (forall s :: s in dbc.stmtList ==> s in h.stmts && h.stmts[s].dbc == d)
    && (forall x :: x in dbc.descList ==> x in h.descs && h.descs[x].dbc == d)
  }

  ghost predicate StmtOk(h: Heap, s: Handle)
    requires s in h.stmts
  {
    var stmt := h.stmts[s];
    && stmt.dbc in h.dbcs && s in h.dbcs[stmt.dbc].stmtList
    && Distinct([stmt.appRow, stmt.appParam, stmt.impRow, stmt.impParam])
    && (forall x :: Owns(stmt, x) ==>
          x in h.descs && h.descs[x] == Desc(stmt.dbc, None) && x !in h.dbcs[stmt.dbc].descList)
  }

  ghost predicate ImplicitOf(h: Heap, s: Handle, x: Handle) { s in h.stmts && Owns(h.stmts[s], x) }

  predicate Explicit(h: Heap, x: Handle) {
    x in h.descs && h.descs[x].dbc in h.dbcs && x in h.dbcs[h.descs[x].dbc].descList
  }

  ghost predicate DescOk(h: Heap, x: Handle)
    requires x in h.descs
  {
    h.descs[x].dbc in h.dbcs && (Explicit(h, x) || exists s :: ImplicitOf(h, s, x))
  }

  // Everything below the connections; it also holds while a connection is detached from its environment.
  ghost predicate Forest(h: Heap) {
    && (forall d :: d in h.dbcs ==> DbcOk(h, d))
    && (forall s :: s in h.stmts ==> StmtOk(h, s))
    && (forall x :: x in h.descs ==> DescOk(h, x))
    && (forall s, s', x :: ImplicitOf(h, s, x) && ImplicitOf(h, s', x) ==> s == s')
  }

  ghost predicate Allocated(h: Heap) {
    && h.next >= 1
    && (forall e :: e in h.envs ==> 1 <= e < h.next)
    && (forall d :: d in h.dbcs ==> 1 <= d < h.next)
    && (forall s :: s in h.stmts ==> 1 <= s < h.next)
    && (forall x :: x in h.descs ==> 1 <= x < h.next)
  }

  ghost predicate Tree(h: Heap) {
    && Forest(h)
    && (forall e :: e in h.envs ==> EnvOk(h, e))
    && (forall d :: d in h.dbcs ==> h.dbcs[d].env in h.envs && d in h.envs[h.dbcs[d].env].dbcList)
  }

  // ---------- the books ----------

  // A statement or an explicit descriptor, as a holder of an underlying handle.
  datatype Ref = StmtRef(handle: Handle) | DescRef(handle: Handle)

  ghost predicate Wraps(h: Heap, r: Ref, u: Underlying) {
    match r
    case StmtRef(s) => s in h.stmts && h.stmts[s].wrapped == Some(u)
    case DescRef(x) => x in h.descs && h.descs[x].wrapped == Some(u)
  }

  function DbcOf(h: Heap, r: Ref): Handle {
    match r
    case StmtRef(s) => if s in h.stmts then h.stmts[s].dbc else 0
    case DescRef(x) => if x in h.descs then h.descs[x].dbc else 0
  }

  ghost predicate Outstanding(h: Heap, u: Underlying) { u in h.issued && u !in h.released && u !in h.orphaned }

  // The underlying handles that are out are exactly those held, each by one holder, and each holder's
  // environment still has the driver that can take it back.
  ghost predicate Books(h: Heap) {
    && (forall r, u :: Wraps(h, r, u) ==> Outstanding(h, u))
    && (forall r, u :: Wraps(h, r, u) ==>
          var d := DbcOf(h, r);
          d in h.dbcs && h.dbcs[d].env == h.issued[u] && h.dbcs[d].env in h.envs && h.envs[h.dbcs[d].env].loader)
    && (forall r, r', u :: Wraps(h, r, u) && Wraps(h, r', u) ==> r == r')
    && (forall u :: Outstanding(h, u) ==> exists r :: Wraps(h, r, u))
    && h.released !! h.orphaned
    && h.released + h.orphaned <= h.issued.Keys
  }

  // What every deletion keeps from step to step.
  ghost predicate Sound(h: Heap) { Allocated(h) && Forest(h) && Books(h) }

  ghost predicate Valid(h: Heap) { Sound(h) && Tree(h) }

  // Some holders let go of what they held: it is given back, or forgotten when there is no driver to call.
  ghost predicate LetsGo(h: Heap, h': Heap, gone: set<Ref>, loaded: bool) {
    && h'.issued == h.issued && h'.envs == h.envs
    && (forall d :: d in h.dbcs ==> d in h'.dbcs && h'.dbcs[d].env == h.dbcs[d].env)
    && (forall u :: u in h'.released <==> u in h.released || (loaded && HeldIn(h, gone, u)))
    && (forall u :: u in h'.orphaned <==> u in h.orphaned || (!loaded && HeldIn(h, gone, u)))
    && (forall r, u :: Wraps(h', r, u) <==> Wraps(h, r, u) && r !in gone)
    && (forall r, u :: Wraps(h', r, u) ==> DbcOf(h', r) == DbcOf(h, r))
  }

  ghost predicate HeldIn(h: Heap, refs: set<Ref>, u: Underlying) { exists r :: r in refs && Wraps(h, r, u) }

  lemma LettingGoKeepsBooks(h: Heap, h': Heap, gone: set<Ref>, loaded: bool)
    requires Books(h) && LetsGo(h, h', gone, loaded)
    ensures Books(h')
  {
    forall u | Outstanding(h', u) ensures exists r :: Wraps(h', r, u) {
      assert Outstanding(h, u);
      var r :| Wraps(h, r, u);
      assert Wraps(h', r, u);
    }
    forall r, u | Wraps(h', r, u) ensures Outstanding(h', u) {
      assert Wraps(h, r, u);
    }
    forall u | HeldIn(h, gone, u) ensures Outstanding(h, u) {
      var r :| r in gone && Wraps(h, r, u);
    }
  }

  function StmtRefs(ss: set<Handle>): set<Ref> { set s | s in ss :: StmtRef(s) }

  function DescRefs(xs: set<Handle>): set<Ref> { set x | x in xs :: DescRef(x) }

  ghost predicate WrappedByStmt(h: Heap, gone: set<Handle>, u: Underlying) {
    exists s :: s in gone && Wraps(h, StmtRef(s), u)
  }

  ghost predicate WrappedByDesc(h: Heap, gone: set<Handle>, u: Underlying) {
    exists x :: x in gone && Wraps(h, DescRef(x), u)
  }

  lemma WrappedByStmtIsHeld(h: Heap, gone: set<Handle>, u: Underlying)
    ensures WrappedByStmt(h, gone, u) <==> HeldIn(h, StmtRefs(gone), u)
  {
    if WrappedByStmt(h, gone, u) {
      var s :| s in gone && Wraps(h, StmtRef(s), u);
      assert StmtRef(s) in StmtRefs(gone);
    }
  }

  lemma WrappedByDescIsHeld(h: Heap, gone: set<Handle>, u: Underlying)
    ensures WrappedByDesc(h, gone, u) <==> HeldIn(h, DescRefs(gone), u)
  {
    if WrappedByDesc(h, gone, u) {
      var x :| x in gone && Wraps(h, DescRef(x), u);
      assert DescRef(x) in DescRefs(gone);
    }
  }

  lemma ForestGives(h: Heap)
    requires Forest(h)
    ensures forall d :: d in h.dbcs ==> DbcOk(h, d)
    ensures forall s :: s in h.stmts ==> StmtOk(h, s)
    ensures forall x :: x in h.descs ==> DescOk(h, x)
  {
  }

  // A descriptor that stays explicit, or keeps its statement, stays in order.
  lemma DescStays(h: Heap, h': Heap, x: Handle)
    requires x in h.descs && DescOk(h, x) && x in h'.descs && h'.descs[x].dbc in h'.dbcs
    requires Explicit(h, x) ==> Explicit(h', x)
    requires forall s :: ImplicitOf(h, s, x) ==> ImplicitOf(h', s, x)
    ensures DescOk(h', x)
  {
    hide Explicit, ImplicitOf;
    if !Explicit(h, x) {
      var s :| ImplicitOf(h, s, x);
      assert ImplicitOf(h', s, x);
    }
  }

  // The forest does not look into the environments' lists.
  lemma SameBelow(h: Heap, h': Heap)
    requires Forest(h)
    requires h'.dbcs == h.dbcs && h'.stmts == h.stmts && h'.descs == h.descs && h.envs.Keys <= h'.envs.Keys
    ensures Forest(h')
  {
    forall x | x in h'.dbcs ensures DbcOk(h', x) { assert DbcOk(h, x); }
    forall x | x in h'.stmts ensures StmtOk(h', x) { assert StmtOk(h, x); }
    forall x | x in h'.descs ensures DescOk(h', x) { SameDesc(h, h', x); }
    assert forall s, x :: ImplicitOf(h', s, x) ==> ImplicitOf(h, s, x);
  }

  lemma SameDesc(h: Heap, h': Heap, x: Handle)
    requires x in h.descs && DescOk(h, x)
    requires h'.dbcs == h.dbcs && h'.stmts == h.stmts && h'.descs == h.descs
    ensures DescOk(h', x)
  {
    if !Explicit(h, x) {
      var s :| ImplicitOf(h, s, x);
      assert ImplicitOf(h', s, x);
    }
  }

  // The environments' lists and the connections' environments are as before.
  lemma SameEnvOfKeepsEnvs(h: Heap, h': Heap)
    requires Tree(h) && h'.envs == h.envs && h'.dbcs.Keys == h.dbcs.Keys
    requires forall d :: d in h.dbcs ==> h'.dbcs[d].env == h.dbcs[d].env
    ensures forall e :: e in h'.envs ==> EnvOk(h', e)
    ensures forall d :: d in h'.dbcs ==> h'.dbcs[d].env in h'.envs && d in h'.envs[h'.dbcs[d].env].dbcList
  {
    forall e | e in h'.envs ensures EnvOk(h', e) { assert EnvOk(h, e); }
  }
}
