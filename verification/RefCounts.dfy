/**
 * The registries that share one object per identifier among its users and count them: the topology monitors of the
 * host list providers, one per cluster, and the status providers of the Blue/Green plugins.
 */
module RefCounts {

  import opened Options

  type User = nat

  // Shared objects are numbered in the order they are made.
  type Shared = nat

  datatype Entry = Entry(count: int, shared: Shared)

  datatype Holding = Holding(id: string, shared: Shared)

  // The registry itself, what each live user holds, and how many shared objects have been made.
  datatype State = State(entries: map<string, Entry>, held: map<User, Holding>, made: nat)

  const EMPTY := State(map[], map[], 0)

  // A user that already holds an object does not acquire one again, one that holds none has nothing to release.
  datatype Event = Acquire(user: User, id: string) | Release(user: User)

  function Apply(s: State, e: Event): State {
    match e
    case Acquire(user, id) =>
      if user in s.held then s
      else if id in s.entries then
        var entry := s.entries[id];
        s.(entries := s.entries[id := entry.(count := entry.count + 1)], held := s.held[user := Holding(id, entry.shared)])
      else
        State(s.entries[id := Entry(1, s.made)], s.held[user := Holding(id, s.made)], s.made + 1)
    case Release(user) =>
      if user !in s.held then s
      else
        var id := s.held[user].id;
        var rest := s.held - {user};
        if id !in s.entries then s.(held := rest)
        else if s.entries[id].count == 1 then s.(entries := s.entries - {id}, held := rest)
        else s.(entries := s.entries[id := s.entries[id].(count := s.entries[id].count - 1)], held := rest)
  }

  // ---------- counts are exact ----------

  function HoldersOf(s: State, id: string): set<User> { set u | u in s.held && s.held[u].id == id }

  ghost predicate Counted(s: State) {
    forall id :: id in s.entries ==> s.entries[id].count == |HoldersOf(s, id)| >= 1
  }

  ghost predicate Shares(s: State) {
    forall u :: u in s.held ==> s.held[u].id in s.entries && s.held[u].shared == s.entries[s.held[u].id].shared
  }

  ghost predicate Apart(s: State) {
    && (forall id :: id in s.entries ==> s.entries[id].shared < s.made)
    && (forall i, j :: i in s.entries && j in s.entries && s.entries[i].shared == s.entries[j].shared ==> i == j)
  }

  ghost predicate Exact(s: State) { Counted(s) && Shares(s) && Apart(s) }

  lemma AcquireHolders(s: State, user: User, id: string, other: string)
    requires user !in s.held
    ensures HoldersOf(Apply(s, Acquire(user, id)), other) == HoldersOf(s, other) + (if other == id then {user} else {})
  {
  }

  lemma ReleaseHolders(s: State, user: User, other: string)
    requires Exact(s) && user in s.held
    ensures HoldersOf(Apply(s, Release(user)), other) == HoldersOf(s, other) - {user}
    ensures user in HoldersOf(s, other) <==> s.held[user].id == other
  {
  }

  lemma AcquireKeepsExact(s: State, user: User, id: string)
    requires Exact(s)
    ensures Exact(Apply(s, Acquire(user, id)))
  {
    if user !in s.held {
      AcquireKeepsCounted(s, user, id);
    }
  }

  lemma AcquireKeepsCounted(s: State, user: User, id: string)
    requires Counted(s) && Shares(s) && user !in s.held
    ensures Counted(Apply(s, Acquire(user, id)))
  {
    hide HoldersOf;
    var t := Apply(s, Acquire(user, id));
    forall other | other in t.entries ensures t.entries[other].count == |HoldersOf(t, other)| >= 1 {
      AcquireHolders(s, user, id, other);
      NewHolder(s, user, other);
    }
  }

  lemma NewHolder(s: State, user: User, id: string)
    requires Shares(s) && user !in s.held
    ensures |HoldersOf(s, id) + {user}| == |HoldersOf(s, id)| + 1
    ensures id !in s.entries ==> HoldersOf(s, id) == {}
  {
  }

  lemma ReleaseKeepsExact(s: State, user: User)
    requires Exact(s)
    ensures Exact(Apply(s, Release(user)))
  {
    if user in s.held {
      ReleaseKeepsCounted(s, user);
      var t := Apply(s, Release(user));
      forall u | u in t.held ensures t.held[u].id in t.entries {
        LastHolder(s, user, u);
      }
    }
  }

  lemma ReleaseKeepsCounted(s: State, user: User)
    requires Exact(s) && user in s.held
    ensures Counted(Apply(s, Release(user)))
  {
    hide HoldersOf;
    var id, t := s.held[user].id, Apply(s, Release(user));
    ReleaseHolders(s, user, id);
    forall other | other in t.entries ensures t.entries[other].count == |HoldersOf(t, other)| >= 1 {
      ReleaseHolders(s, user, other);
      if other == id {
        assert |HoldersOf(s, id) - {user}| == |HoldersOf(s, id)| - 1;
      } else {
        assert HoldersOf(s, other) - {user} == HoldersOf(s, other);
      }
    }
  }

  // Another holder of the same identifier means that the count was not one.
  lemma LastHolder(s: State, user: User, other: User)
    requires Exact(s) && user in s.held && other in s.held && user != other
    ensures s.held[user].id == s.held[other].id ==> s.entries[s.held[user].id].count > 1
  {
    var id := s.held[user].id;
    var rest := HoldersOf(s, id) - {user};
    assert user in HoldersOf(s, id);
    assert s.held[other].id == id ==> other in rest;
    assert |rest| == |HoldersOf(s, id)| - 1;
  }

  function Run(s: State, events: seq<Event>): State
    decreases |events|
  {
    if events == [] then s else Run(Apply(s, events[0]), events[1..])
  }

  /** Over every sequence of users coming and going: an identifier is registered exactly when some live user holds it,
      its count is the number of its holders, and they all hold the same object, which no other identifier has. */
  lemma {:induction false} CountsStayExact(s: State, events: seq<Event>)
    requires Exact(s)
    ensures Exact(Run(s, events))
    ensures forall id :: id in Run(s, events).entries <==> exists u :: u in Run(s, events).held && Run(s, events).held[u].id == id
    decreases |events|
  {
    hide Counted, Shares, Apart, Apply;
    if events == [] {
      RegisteredIffHeld(s);
    } else {
      StepKeepsExact(s, events[0]);
      CountsStayExact(Apply(s, events[0]), events[1..]);
    }
  }

  lemma StepKeepsExact(s: State, e: Event)
    requires Exact(s)
    ensures Exact(Apply(s, e))
  {
    match e
    case Acquire(user, id) => AcquireKeepsExact(s, user, id);
    case Release(user) => ReleaseKeepsExact(s, user);
  }

  lemma RegisteredIffHeld(s: State)
    requires Exact(s)
    ensures forall id :: id in s.entries <==> exists u :: u in s.held && s.held[u].id == id
  {
    forall id ensures id in s.entries <==> exists u :: u in s.held && s.held[u].id == id {
      if id in s.entries {
        assert HoldersOf(s, id) != {};
        var u :| u in HoldersOf(s, id);
      }
    }
  }

  /** The last user to go takes the entry with it; the object made for the identifier afterwards is another one. */
  lemma LastOneErases(s: State, user: User, next: User)
    requires Exact(s) && user in s.held
    ensures var id := s.held[user].id;
      var t := Apply(s, Release(user));
      && (id !in t.entries <==> HoldersOf(s, id) == {user})
      && (id !in t.entries && next !in t.held ==>
        var again := Apply(t, Acquire(next, id));
        again.held[next].shared >= s.made > s.held[user].shared)
  {
    var id := s.held[user].id;
    ReleaseHolders(s, user, id);
    if HoldersOf(s, id) != {user} {
      var other :| other in HoldersOf(s, id) && other != user;
      LastHolder(s, user, other);
    } else {
      assert |HoldersOf(s, id)| == 1;
    }
  }
}
