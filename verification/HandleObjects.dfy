/** What every call leaves, object by object: which handles are live, what they belong to, which connections are connected and
    who holds which underlying handle, said in terms of the heap before the call alone. */
module HandleObjects {

  import opened Options
  import opened HandleTree
  import opened HandleDeletion
  import opened HandleChanges
  import opened HandleRuns
  import opened HandleReleases

  // ---------- what a call takes away ----------

  predicate TakesDbc(h: Heap, c: Call, d: Handle) { c == FreeConnect(d) || (d in h.dbcs && c == FreeEnv(h.dbcs[d].env)) }

  predicate TakesStmt(h: Heap, c: Call, s: Handle)
    requires s in h.stmts
  {
    c == FreeStmt(s) || c == SqlDisconnect(h.stmts[s].dbc) || TakesDbc(h, c, h.stmts[s].dbc)
  }

  // An implicit descriptor goes with its statement.
  ghost predicate TakesDesc(h: Heap, c: Call, x: Handle)
    requires x in h.descs
  {
    c == FreeDesc(x) || TakesDbc(h, c, h.descs[x].dbc) || exists s :: ImplicitOf(h, s, x) && TakesStmt(h, c, s)
  }

  // ---------- what a valid heap says about lists ----------

  lemma ListedDbcs(h: Heap, e: Handle, d: Handle)
    requires Valid(h) && e in h.envs
    ensures d in Elements(h.envs[e].dbcList) <==> d in h.dbcs && h.dbcs[d].env == e
  {
    assert EnvOk(h, e);
  }

  lemma ListedStmts(h: Heap, d: Handle, s: Handle)
    requires Valid(h) && d in h.dbcs
    ensures s in Elements(h.dbcs[d].stmtList) <==> s in h.stmts && h.stmts[s].dbc == d
  {
    assert DbcOk(h, d);
    if s in h.stmts { assert StmtOk(h, s); }
  }

  lemma NextIsFree(h: Heap)
    requires Valid(h)
    ensures h.next !in h.envs && h.next !in h.dbcs && h.next !in h.stmts
    ensures forall x :: h.next <= x ==> x !in h.descs
    ensures forall r, u :: Wraps(h, r, u) ==> r != StmtRef(h.next) && r != DescRef(h.next)
  {
  }

  lemma ImplicitIsOf(h: Heap, s: Handle, x: Handle)
    requires Valid(h) && ImplicitOf(h, s, x)
    ensures x in h.descs && h.stmts[s].dbc == h.descs[x].dbc && h.descs[x].wrapped.None? && !Explicit(h, x)
  {
    assert StmtOk(h, s);
  }

  lemma WrapsOnlyListed(h: Heap, x: Handle)
    requires Valid(h) && x in h.descs && h.descs[x].wrapped.Some?
    ensures h.descs[x].dbc in h.dbcs && x in Elements(h.dbcs[h.descs[x].dbc].descList)
  {
    assert DescOk(h, x);
    if !Explicit(h, x) {
      var s :| ImplicitOf(h, s, x);
      ImplicitIsOf(h, s, x);
    }
  }

  lemma ListedDescs(h: Heap, d: Handle, x: Handle)
    requires Valid(h) && d in h.dbcs && x in Elements(h.dbcs[d].descList)
    ensures x in h.descs && h.descs[x].dbc == d
  {
    assert DbcOk(h, d);
  }

  // ---------- object by object ----------

  /** Live environments. */
  lemma LiveEnvs(h: Heap, c: Call, e: Handle)
    requires Valid(h) && Callable(h, c)
    ensures e in After(h, c).envs <==> (e in h.envs && c != FreeEnv(e)) || (c.AllocEnv? && e == h.next)
  {
    hide Valid;
    match c
    case AllocEnv =>
    case AllocDbc(_) =>
    case Connect(_) =>
    case AllocStmt(_, _) =>
    case AllocDesc(_, _) =>
    case Execute(_, _) =>
    case FreeStmt(_) =>
    case FreeDesc(_) =>
    case Disconnect(_, _) =>
    case SqlDisconnect(_) =>
    case FreeConnect(_) =>
    case FreeEnv(_) =>
  }

  /** Live connections, and the environment each belongs to. */
  lemma LiveDbcs(h: Heap, c: Call, d: Handle)
    requires Valid(h) && Callable(h, c)
    ensures d in After(h, c).dbcs <==> (d in h.dbcs && !TakesDbc(h, c, d)) || (c.AllocDbc? && d == h.next)
    ensures d in After(h, c).dbcs ==> After(h, c).dbcs[d].env == if d in h.dbcs then h.dbcs[d].env else c.env
  {
    hide Valid, Elements;
    NextIsFree(h);
    if c.FreeEnv? { ListedDbcs(h, c.env, d); }
    match c
    case AllocEnv =>
    case AllocDbc(_) =>
    case Connect(_) =>
    case AllocStmt(_, _) =>
    case AllocDesc(_, _) =>
    case Execute(_, _) =>
    case FreeStmt(_) =>
    case FreeDesc(_) =>
    case Disconnect(_, _) =>
    case SqlDisconnect(_) =>
    case FreeConnect(_) =>
    case FreeEnv(_) =>
  }

  predicate Allocates(c: Call) { c.AllocEnv? || c.AllocDbc? || c.Connect? || c.AllocStmt? || c.AllocDesc? || c.Execute? }

  lemma StmtsAfterAllocating(h: Heap, c: Call, s: Handle)
    requires Callable(h, c) && Allocates(c) && h.next !in h.stmts
    ensures s in After(h, c).stmts <==> s in h.stmts || (c.AllocStmt? && s == h.next)
    ensures s in After(h, c).stmts ==> After(h, c).stmts[s].dbc == if s in h.stmts then h.stmts[s].dbc else c.dbc
  {
    match c
    case AllocEnv =>
    case AllocDbc(_) =>
    case Connect(_) =>
    case AllocStmt(_, _) =>
    case AllocDesc(_, _) =>
    case Execute(_, _) =>
  }

  /** Live statements, and the connection each belongs to. */
  lemma LiveStmts(h: Heap, c: Call, s: Handle)
    requires Valid(h) && Callable(h, c)
    ensures s in After(h, c).stmts <==> (s in h.stmts && !TakesStmt(h, c, s)) || (c.AllocStmt? && s == h.next)
    ensures s in After(h, c).stmts ==> After(h, c).stmts[s].dbc == if s in h.stmts then h.stmts[s].dbc else c.dbc
  {
    hide Valid, Elements, AllocEnvSpec, AllocDbcSpec, Connected, AllocStmtSpec, AllocDescSpec, RewrapSpec;
    NextIsFree(h);
    if s in h.stmts { LiveStmtFacts(h, s); }
    if c.FreeEnv? && s in h.stmts { ListedDbcs(h, c.env, h.stmts[s].dbc); }
    if c.SqlDisconnect? { ListedStmts(h, c.dbc, s); }
    if Allocates(c) {
      StmtsAfterAllocating(h, c, s);
    } else {
      match c
      case FreeStmt(_) =>
      case FreeDesc(_) =>
      case Disconnect(_, _) =>
      case SqlDisconnect(_) =>
      case FreeConnect(_) =>
      case FreeEnv(_) =>
    }
  }

  lemma LiveStmtFacts(h: Heap, s: Handle)
    requires Valid(h) && s in h.stmts
    ensures h.stmts[s].dbc in h.dbcs
  {
    assert StmtOk(h, s);
  }

  lemma DescsAfterAllocating(h: Heap, c: Call, x: Handle)
    requires Callable(h, c) && Allocates(c) && forall k :: h.next <= k ==> k !in h.descs
    ensures x in After(h, c).descs <==> x in h.descs || (c.AllocDesc? && x == h.next) || (c.AllocStmt? && h.next < x <= h.next + 4)
    ensures x in After(h, c).descs ==> After(h, c).descs[x].dbc == if x in h.descs then h.descs[x].dbc else c.dbc
  {
    match c
    case AllocEnv =>
    case AllocDbc(_) =>
    case Connect(_) =>
    case AllocStmt(_, _) =>
    case AllocDesc(_, _) =>
    case Execute(_, _) =>
  }

  lemma DescsAfterFreeing(h: Heap, c: Call, x: Handle)
    requires Valid(h) && Callable(h, c) && !Allocates(c)
    ensures x in After(h, c).descs <==> x in h.descs && !TakesDesc(h, c, x)
    ensures x in After(h, c).descs ==> After(h, c).descs[x].dbc == h.descs[x].dbc
  {
    hide Valid, Elements, ImplicitOf, TakesDesc;
    if x in h.descs {
      LiveDescFacts(h, x);
      TakenWithStmt(h, c, x);
      if c.FreeEnv? { ListedDbcs(h, c.env, h.descs[x].dbc); }
    }
    match c
    case FreeStmt(_) =>
    case FreeDesc(_) =>
    case Disconnect(_, _) =>
    case SqlDisconnect(_) =>
    case FreeConnect(_) =>
    case FreeEnv(_) =>
  }

  lemma AllocatingTakesNothing(h: Heap, c: Call, x: Handle)
    requires Callable(h, c) && Allocates(c) && x in h.descs
    ensures !TakesDesc(h, c, x)
  {
  }

  /** Live descriptors, and the connection each belongs to: the four of a new statement are implicit. */
  lemma LiveDescs(h: Heap, c: Call, x: Handle)
    requires Valid(h) && Callable(h, c)
    ensures x in After(h, c).descs <==>
      || (x in h.descs && !TakesDesc(h, c, x))
      || (c.AllocDesc? && x == h.next) || (c.AllocStmt? && h.next < x <= h.next + 4)
    ensures x in After(h, c).descs ==> After(h, c).descs[x].dbc == if x in h.descs then h.descs[x].dbc else c.dbc
  {
    hide Valid, After, TakesDesc;
    NextIsFree(h);
    if Allocates(c) {
      DescsAfterAllocating(h, c, x);
      if x in h.descs { AllocatingTakesNothing(h, c, x); }
    } else {
      DescsAfterFreeing(h, c, x);
    }
  }

  lemma LiveDescFacts(h: Heap, x: Handle)
    requires Valid(h) && x in h.descs
    ensures h.descs[x].dbc in h.dbcs
  {
    assert DescOk(h, x);
  }

  // The statements that a call takes, one by one.
  lemma TakenWithStmt(h: Heap, c: Call, x: Handle)
    requires Valid(h) && Callable(h, c) && x in h.descs
    ensures c.FreeStmt? ==> (TakesDesc(h, c, x) <==> ImplicitIn(h, {c.stmt}, x))
    ensures c.SqlDisconnect? ==> (TakesDesc(h, c, x) <==> ImplicitIn(h, Elements(h.dbcs[c.dbc].stmtList), x))
    ensures !c.FreeStmt? && !c.SqlDisconnect? ==> (TakesDesc(h, c, x) <==> c == FreeDesc(x) || TakesDbc(h, c, h.descs[x].dbc))
  {
    hide Valid, Elements;
    forall s | ImplicitOf(h, s, x)
      ensures s in h.stmts && h.stmts[s].dbc == h.descs[x].dbc
      ensures c.SqlDisconnect? ==> (s in Elements(h.dbcs[c.dbc].stmtList) <==> TakesStmt(h, c, s))
    {
      ImplicitIsOf(h, s, x);
      if c.SqlDisconnect? { ListedStmts(h, c.dbc, s); }
    }
    if c.FreeStmt? && ImplicitIn(h, {c.stmt}, x) {
      assert ImplicitOf(h, c.stmt, x) && TakesStmt(h, c, c.stmt);
    }
  }

  /** A connection is connected by Connect and disconnected by Disconnect. */
  lemma ConnectedDbcs(h: Heap, c: Call, d: Handle)
    requires Valid(h) && Callable(h, c) && d in After(h, c).dbcs
    ensures After(h, c).dbcs[d].wrapped <==>
      c == Connect(d) || (d in h.dbcs && h.dbcs[d].wrapped && !(c.Disconnect? && c.dbc == d))
  {
    hide Valid, Elements;
    NextIsFree(h);
    match c
    case AllocEnv =>
    case AllocDbc(_) =>
    case Connect(_) =>
    case AllocStmt(_, _) =>
    case AllocDesc(_, _) =>
    case Execute(_, _) =>
    case FreeStmt(_) =>
    case FreeDesc(_) =>
    case Disconnect(_, _) =>
    case SqlDisconnect(_) =>
    case FreeConnect(_) =>
    case FreeEnv(_) =>
  }

  /** An environment has the driver once one of its connections has been connected. */
  lemma LoadedEnvs(h: Heap, c: Call, e: Handle)
    requires Valid(h) && Callable(h, c) && e in After(h, c).envs
    ensures After(h, c).envs[e].loader <==>
      (c.Connect? && h.dbcs[c.dbc].env == e) || (e in h.envs && h.envs[e].loader)
  {
    hide Valid, Elements;
    NextIsFree(h);
    LiveEnvs(h, c, e);
    match c
    case AllocEnv =>
    case AllocDbc(_) =>
    case Connect(_) =>
    case AllocStmt(_, _) =>
    case AllocDesc(_, _) =>
    case Execute(_, _) =>
    case FreeStmt(_) =>
    case FreeDesc(_) =>
    case Disconnect(_, _) =>
    case SqlDisconnect(_) =>
    case FreeConnect(_) =>
    case FreeEnv(_) =>
  }

  // A driver may give out a handle that is not out yet, if it is loaded.
  predicate MayGrant(h: Heap, d: Handle, grant: Option<Underlying>)
    requires d in h.dbcs
  {
    grant == None || (grant.value !in h.issued && h.dbcs[d].env in h.envs && h.envs[h.dbcs[d].env].loader)
  }

  /** In a valid heap a call needs no more than live handles, a connected connection to allocate below, and for a new underlying
      handle a statement that has none. */
  lemma CallsNeedLiveHandles(h: Heap, c: Call)
    requires Valid(h)
    ensures Callable(h, c) <==>
      match c
      case AllocEnv => true
      case AllocDbc(e) => e in h.envs
      case Connect(d) => d in h.dbcs
      case AllocStmt(d, grant) => d in h.dbcs && h.dbcs[d].wrapped && MayGrant(h, d, grant)
      case AllocDesc(d, grant) => d in h.dbcs && h.dbcs[d].wrapped && MayGrant(h, d, grant)
      case Execute(s, grant) => s in h.stmts && h.stmts[s].wrapped == None && (h.stmts[s].dbc in h.dbcs ==> MayGrant(h, h.stmts[s].dbc, grant))
      case FreeStmt(s) => s in h.stmts
      case FreeDesc(x) => x in h.descs && forall s :: s in h.stmts ==> !Owns(h.stmts[s], x)
      case Disconnect(d, _) => d in h.dbcs
      case SqlDisconnect(d) => d in h.dbcs
      case FreeConnect(d) => d in h.dbcs
      case FreeEnv(e) => e in h.envs
  {
    hide Valid, Explicit, Owns;
    match c
    case Connect(d) => if d in h.dbcs { LiveDbcFacts(h, d); }
    case Execute(s, _) => if s in h.stmts { LiveStmtFacts(h, s); }
    case FreeDesc(x) => ExplicitIsOwnedByNone(h, x);
    case _ =>
  }

  lemma LiveDbcFacts(h: Heap, d: Handle)
    requires Valid(h) && d in h.dbcs
    ensures h.dbcs[d].env in h.envs
  {
    assert DbcOk(h, d);
  }

  lemma ExplicitIsOwnedByNone(h: Heap, x: Handle)
    requires Valid(h)
    ensures Explicit(h, x) <==> x in h.descs && forall s :: s in h.stmts ==> !Owns(h.stmts[s], x)
  {
    if x in h.descs { assert DescOk(h, x); }
    if s :| s in h.stmts && Owns(h.stmts[s], x) {
      assert ImplicitOf(h, s, x);
      ImplicitIsOf(h, s, x);
    }
  }

  // ---------- who holds what ----------

  // The underlying handle that a call asks for, and who gets it.
  predicate Gets(h: Heap, c: Call, r: Ref, u: Underlying) {
    match c
    case AllocStmt(_, grant) => r == StmtRef(h.next) && grant == Some(u)
    case AllocDesc(_, grant) => r == DescRef(h.next) && grant == Some(u)
    case Execute(s, grant) => r == StmtRef(s) && grant == Some(u)
    case _ => false
  }

  lemma HoldersAfterAllocating(h: Heap, c: Call, r: Ref, u: Underlying)
    requires Callable(h, c) && Allocates(c) && h.next !in h.stmts && forall x :: h.next <= x ==> x !in h.descs
    ensures Wraps(After(h, c), r, u) <==> Gets(h, c, r, u) || Wraps(h, r, u)
  {
    match c
    case AllocEnv =>
    case AllocDbc(_) =>
    case Connect(_) =>
    case AllocStmt(_, _) =>
    case AllocDesc(_, _) =>
    case Execute(_, _) =>
  }

  lemma StmtHoldersAfterFreeing(h: Heap, c: Call, s: Handle, u: Underlying)
    requires Valid(h) && Callable(h, c) && !Allocates(c)
    ensures Wraps(After(h, c), StmtRef(s), u) <==> Wraps(h, StmtRef(s), u) && !Targets(h, c, StmtRef(s))
  {
    hide Valid, Elements;
    if s in h.stmts {
      LiveStmtFacts(h, s);
      if c.FreeEnv? { ListedDbcs(h, c.env, h.stmts[s].dbc); }
      if c.SqlDisconnect? || c.Disconnect? { ListedStmts(h, c.dbc, s); }
    }
    match c
    case FreeStmt(_) =>
    case FreeDesc(_) =>
    case Disconnect(_, _) =>
    case SqlDisconnect(_) =>
    case FreeConnect(_) =>
    case FreeEnv(_) =>
  }

  lemma DescHoldersAfterFreeing(h: Heap, c: Call, x: Handle, u: Underlying)
    requires Valid(h) && Callable(h, c) && !Allocates(c)
    ensures Wraps(After(h, c), DescRef(x), u) <==> Wraps(h, DescRef(x), u) && !Targets(h, c, DescRef(x))
  {
    hide Valid, Elements, ImplicitOf;
    if x in h.descs && h.descs[x].wrapped == Some(u) {
      LiveDescFacts(h, x);
      WrapsOnlyListed(h, x);
      ImplicitHoldsNothing(h, x);
      if c.FreeEnv? { ListedDbcs(h, c.env, h.descs[x].dbc); }
      if c.Disconnect? { if x in Elements(h.dbcs[c.dbc].descList) { ListedDescs(h, c.dbc, x); } }
    }
    match c
    case FreeStmt(_) =>
    case FreeDesc(_) =>
    case Disconnect(_, _) =>
    case SqlDisconnect(_) =>
    case FreeConnect(_) =>
    case FreeEnv(_) =>
  }

  lemma ImplicitHoldsNothing(h: Heap, x: Handle)
    requires Valid(h) && x in h.descs && h.descs[x].wrapped.Some?
    ensures forall gone :: !ImplicitIn(h, gone, x)
  {
    if s :| ImplicitOf(h, s, x) {
      ImplicitIsOf(h, s, x);
    }
  }

  /** Who holds which underlying handle after a call: whoever was granted one, and whoever held one before and is not a target. */
  lemma Holders(h: Heap, c: Call, r: Ref, u: Underlying)
    requires Valid(h) && Callable(h, c)
    ensures Wraps(After(h, c), r, u) <==> Gets(h, c, r, u) || (Wraps(h, r, u) && !Targets(h, c, r))
  {
    hide Valid, After, Wraps;
    NextIsFree(h);
    if Allocates(c) {
      HoldersAfterAllocating(h, c, r, u);
    } else {
      match r
      case StmtRef(s) => StmtHoldersAfterFreeing(h, c, s, u);
      case DescRef(x) => DescHoldersAfterFreeing(h, c, x, u);
    }
  }

  // ---------- connected or not, over runs ----------

  // The last event about the connection's state says that it is connected.
  predicate LastConnects(calls: seq<Call>, d: Handle)
    decreases |calls|
  {
    if calls == [] then false
    else
      var last := calls[|calls| - 1];
      if last == Connect(d) then true
      else if last.Disconnect? && last.dbc == d then false
      else LastConnects(calls[..|calls| - 1], d)
  }

  lemma ConnectedByLast(calls: seq<Call>, d: Handle)
    requires Runs(EMPTY, calls) && d in Exec(EMPTY, calls).dbcs
    ensures Exec(EMPTY, calls).dbcs[d].wrapped <==> LastConnects(calls, d)
  {
    hide Valid, After, Callable, Exec;
    ConnectedInRun(calls, d);
  }

  // Handles are not reused: no call names a connection before it is made.
  lemma {:induction false} ConnectedInRun(calls: seq<Call>, d: Handle)
    requires Runs(EMPTY, calls)
    ensures d in Exec(EMPTY, calls).dbcs ==> (Exec(EMPTY, calls).dbcs[d].wrapped <==> LastConnects(calls, d))
    ensures d >= Exec(EMPTY, calls).next ==> !LastConnects(calls, d)
    decreases |calls|
  {
    hide Valid, After, Callable;
    if calls != [] {
      var k := |calls| - 1;
      assert calls == calls[..k] + [calls[k]];
      RunsBeforeLast(EMPTY, calls[..k], calls[k]);
      ConnectedInRun(calls[..k], d);
      var h := Exec(EMPTY, calls[..k]);
      EmptyIsValid();
      RunKeepsValid(EMPTY, calls[..k]);
      NamesLiveDbc(h, calls[k], d);
      LiveDbcs(h, calls[k], d);
      if d in After(h, calls[k]).dbcs { ConnectedDbcs(h, calls[k], d); }
    }
  }

  lemma NamesLiveDbc(h: Heap, c: Call, d: Handle)
    requires Valid(h) && Callable(h, c)
    ensures c == Connect(d) || (c.Disconnect? && c.dbc == d) ==> d in h.dbcs && d < h.next
    ensures After(h, c).next >= h.next && (d in h.dbcs ==> d < h.next)
    ensures c.AllocDbc? ==> After(h, c).next > h.next
  {
    hide After;
    NextOnlyGrows(h, c);
  }

  lemma NextOnlyGrows(h: Heap, c: Call)
    requires Callable(h, c)
    ensures After(h, c).next >= h.next && (c.AllocDbc? ==> After(h, c).next > h.next)
  {
    hide Elements, Without, ImplicitIn, WrappedByStmt, WrappedByDesc, HeldBelow, StmtsOf, DescsOf;
    match c
    case AllocEnv =>
    case AllocDbc(_) =>
    case Connect(_) =>
    case AllocStmt(_, _) =>
    case AllocDesc(_, _) =>
    case Execute(_, _) =>
    case FreeStmt(_) =>
    case FreeDesc(_) =>
    case Disconnect(_, _) =>
    case SqlDisconnect(_) =>
    case FreeConnect(_) =>
    case FreeEnv(_) =>
  }

  lemma {:induction false} RunsBeforeLast(h: Heap, calls: seq<Call>, c: Call)
    requires Runs(h, calls + [c])
    ensures Runs(h, calls) && Callable(Exec(h, calls), c) && Exec(h, calls + [c]) == After(Exec(h, calls), c)
    decreases |calls|
  {
    hide After, Callable;
    if calls == [] {
      assert calls + [c] == [c];
    } else {
      assert (calls + [c])[1..] == calls[1..] + [c];
      RunsBeforeLast(After(h, calls[0]), calls[1..], c);
    }
  }

  /** A connection takes new statements and descriptors exactly while it is connected: over every run, when the last of its
      connects and disconnects was a connect. */
  lemma TakesNewWhileConnected(calls: seq<Call>, d: Handle)
    requires Runs(EMPTY, calls)
    ensures var h := Exec(EMPTY, calls);
      && (Callable(h, AllocStmt(d, None)) <==> d in h.dbcs && LastConnects(calls, d))
      && (Callable(h, AllocDesc(d, None)) <==> d in h.dbcs && LastConnects(calls, d))
  {
    hide Valid, After, Exec, LastConnects;
    if d in Exec(EMPTY, calls).dbcs { ConnectedByLast(calls, d); }
  }
}
