/**
 * The route loops of the Blue/Green plugin. A failed route makes the plugin fetch the status again and try the
 * route that matches now, unless its text is that of the route tried before the one that just failed. Routes are
 * opaque: a text, and whether they match.
 */
module BlueGreenRouting {

  import opened Options
  import opened ConnectionKeys

  datatype Route = Route(text: string, matches: bool)

  // What one fetch of the status finds: nothing any more, or routes and the role of the host.
  datatype Status = Cleared | Status(roleKnown: bool, routes: seq<Route>)

  type ConnAttr = map<string, string>

  datatype Attempt = Succeeds | Fails | Throws(what: string)

  // The surroundings of one call: what fetch n finds, how the n-th attempt ends, and what it makes of the
  // connection attributes it works with.
  datatype Surroundings = Surroundings(fetch: nat -> Status, attempt: nat -> Attempt, rewrite: (nat, ConnAttr) -> ConnAttr)

  // The text is that of the first route that matches.
  ghost predicate FirstMatch(routes: seq<Route>, text: string) {
    exists i :: 0 <= i < |routes| && MatchesFirstAt(routes, i) && text == routes[i].text
  }

  ghost predicate MatchesFirstAt(routes: seq<Route>, i: nat)
    requires i < |routes|
  {
    routes[i].matches && forall j :: 0 <= j < i ==> !routes[j].matches
  }

  predicate NoneMatches(routes: seq<Route>) { forall i :: 0 <= i < |routes| ==> !routes[i].matches }

  function FindIf(routes: seq<Route>): (r: Option<string>)
    ensures r.None? <==> NoneMatches(routes)
    ensures r.Some? ==> FirstMatch(routes, r.value)
  {
    FindsFirst(routes);
    if routes == [] then None else if routes[0].matches then Some(routes[0].text) else FindIf(routes[1..])
  }

  // Behind a route that does not match, the first one that does is the first of all.
  lemma FindsFirst(routes: seq<Route>)
    ensures routes != [] && routes[0].matches ==> FirstMatch(routes, routes[0].text)
    ensures routes != [] && !routes[0].matches ==> forall text :: FirstMatch(routes[1..], text) ==> FirstMatch(routes, text)
    ensures routes != [] && !routes[0].matches ==> (NoneMatches(routes[1..]) <==> NoneMatches(routes))
  {
    if routes != [] && routes[0].matches {
      assert MatchesFirstAt(routes, 0);
    } else if routes != [] {
      forall text | FirstMatch(routes[1..], text) ensures FirstMatch(routes, text) {
        var i :| 0 <= i < |routes[1..]| && MatchesFirstAt(routes[1..], i) && text == routes[1..][i].text;
        forall j | 0 <= j < i + 1 ensures !routes[j].matches {
          assert j > 0 ==> !routes[1..][j - 1].matches;
        }
        assert MatchesFirstAt(routes, i + 1);
      }
      if NoneMatches(routes[1..]) {
        forall i | 0 <= i < |routes| ensures !routes[i].matches {
          assert i > 0 ==> !routes[1..][i - 1].matches;
        }
      }
    }
  }

  function Matched(env: Surroundings, n: nat): Option<string> {
    match env.fetch(n)
    case Cleared => None
    case Status(_, routes) => FindIf(routes)
  }

  // The text that stops the loop when route n matches it again: the route tried before the last one, and the empty
  // text before there was one.
  function LastFailed(env: Surroundings, n: nat): string {
    if n < 2 || Matched(env, n - 2).None? then "" else Matched(env, n - 2).value
  }

  // Route n is attempted, given that all before it were and failed.
  predicate Tried(env: Surroundings, n: nat) {
    Matched(env, n).Some? && (n > 0 ==> Matched(env, n).value != LastFailed(env, n))
  }

  predicate AllTried(env: Surroundings, n: nat) { forall i: nat :: i < n ==> Tried(env, i) }

  // How often the text of the matched route changes from one fetch to the next, up to fetch n.
  function Changes(env: Surroundings, n: nat): nat {
    if n == 0 then 0 else Changes(env, n - 1) + (if Matched(env, n) != Matched(env, n - 1) then 1 else 0)
  }

  // ---------- the bound ----------

  // Two fetches in a row without a change end the loop, so every other fetch brings one.
  lemma {:induction false} ChangesGrow(env: Surroundings, n: nat)
    requires AllTried(env, n + 1)
    ensures n + 1 <= 2 * Changes(env, n) + 2
    ensures n > 0 && Matched(env, n) != Matched(env, n - 1) ==> n + 1 <= 2 * Changes(env, n) + 1
  {
    if n > 0 {
      ChangesGrow(env, n - 1);
      assert Tried(env, n);
    }
  }

  /** If the text of the matched route changes at most c times over the fetches, at most 2(c + 1) routes are tried. */
  lemma AttemptsAreBounded(env: Surroundings, n: nat, c: nat)
    requires AllTried(env, n) && (n > 0 ==> Changes(env, n - 1) <= c)
    ensures n <= 2 * (c + 1)
  {
    if n > 0 {
      ChangesGrow(env, n - 1);
    }
  }

  /** A status that stays the same makes at most two attempts, and just one if the route has an empty text. */
  lemma StableStatus(env: Surroundings, n: nat)
    requires AllTried(env, n) && forall i: nat :: Matched(env, i) == Matched(env, 0)
    ensures n <= 2 && (Matched(env, 0) == Some("") ==> n <= 1)
  {
    hide Matched;
    assert Matched(env, 2) == Matched(env, 0) == Matched(env, 1);
    assert !Tried(env, 2) && (Matched(env, 0) == Some("") ==> !Tried(env, 1));
  }

  // ---------- the bound is reached ----------

  // Two routes by turns, each for two fetches, until there have been c changes.
  function Alternating(c: nat, n: nat): string {
    var turn := if n / 2 <= c then n / 2 else c;
    if turn % 2 == 0 then "blue" else "green"
  }

  function AlternatingStatus(c: nat): Surroundings {
    Surroundings((n: nat) => Status(true, [Route(Alternating(c, n), true)]), (n: nat) => Fails, (n: nat, a: ConnAttr) => a)
  }

  lemma AlternatingMatches(c: nat, n: nat)
    ensures Matched(AlternatingStatus(c), n) == Some(Alternating(c, n))
  {
  }

  lemma AlternatingTurn(c: nat, n: nat)
    requires n > 0
    ensures Alternating(c, n) != Alternating(c, n - 1) <==> n % 2 == 0 && n / 2 <= c
    ensures n > 1 ==> (Alternating(c, n) == Alternating(c, n - 2) <==> n / 2 > c)
    ensures Alternating(c, n) != ""
  {
  }

  lemma {:induction false} AlternatingChanges(c: nat, n: nat)
    ensures Changes(AlternatingStatus(c), n) <= if n / 2 <= c then n / 2 else c
  {
    hide AlternatingStatus, Alternating, Matched;
    if n > 0 {
      AlternatingChanges(c, n - 1);
      AlternatingMatches(c, n - 1);
      AlternatingMatches(c, n);
      AlternatingTurn(c, n);
    }
  }

  lemma AlternatingTried(c: nat, n: nat)
    ensures Tried(AlternatingStatus(c), n) <==> n / 2 <= c
  {
    hide AlternatingStatus, Alternating, Matched;
    AlternatingMatches(c, n);
    if n > 0 {
      AlternatingTurn(c, n);
    }
    if n > 1 {
      AlternatingMatches(c, n - 2);
    }
  }

  /** No smaller bound holds: with c changes there can be exactly 2(c + 1) attempts. */
  lemma BoundIsReached(c: nat)
    ensures var env := AlternatingStatus(c);
      AllTried(env, 2 * (c + 1)) && !Tried(env, 2 * (c + 1)) && forall n: nat :: Changes(env, n) <= c
  {
    hide AlternatingStatus, Changes, Tried;
    var env := AlternatingStatus(c);
    forall n: nat ensures Changes(env, n) <= c {
      AlternatingChanges(c, n);
    }
    forall n: nat ensures Tried(env, n) <==> n < 2 * (c + 1) {
      AlternatingTried(c, n);
    }
  }

  // ---------- the loops ----------

  datatype Ending =
    | Routed
    | MonitoringConnection
    | NoStatus | UnknownRole | NoRoutes | NoMatch | ResetMidLoop | RoutesExhausted
    | Error(message: string)
  {
    // The call is passed on to the next plugin.
    predicate Fallback() { MonitoringConnection? || NoStatus? || UnknownRole? || NoRoutes? || NoMatch? || ResetMidLoop? || RoutesExhausted? }
  }

  // Why a call that has made n attempts ends the way it does.
  predicate Explains(env: Surroundings, n: nat, ending: Ending) {
    match ending
    case Routed => n > 0 && env.attempt(n - 1).Succeeds?
    case MonitoringConnection => n == 0
    case NoStatus => n == 0 && env.fetch(0).Cleared?
    case UnknownRole => n == 0 && env.fetch(0).Status? && !env.fetch(0).roleKnown
    case NoRoutes => n == 0 && env.fetch(0).Status? && env.fetch(0).roleKnown && env.fetch(0).routes == []
    case NoMatch => n == 0 && env.fetch(0).Status? && env.fetch(0).roleKnown && env.fetch(0).routes != [] && !Tried(env, 0)
    case ResetMidLoop => n > 0 && env.attempt(n - 1).Fails? && env.fetch(n).Cleared?
    case RoutesExhausted => n > 0 && env.attempt(n - 1).Fails? && env.fetch(n).Status? && !Tried(env, n)
    case Error(message) => n > 0 && env.attempt(n - 1) == Throws(message)
  }

  // A whole call: the routes tried are those the rule allows, all but the last failed, and the ending fits.
  ghost predicate CallOf(env: Surroundings, attempted: seq<string>, ending: Ending) {
    && AllTried(env, |attempted|)
    && (forall i: nat :: i < |attempted| ==> Matched(env, i) == Some(attempted[i]))
    && (forall i: nat :: i < |attempted| - 1 ==> env.attempt(i).Fails?)
    && (attempted != [] ==> Refusal(env.fetch(0)) == Routed)
    && Explains(env, |attempted|, ending)
  }

  // The same said of the status, the attempts and the texts alone: route i is the first that matches in fetch i, no text is
  // tried that was tried two attempts before (the empty one counts as tried before the first), all attempts but the last fail,
  // and the call ends for one reason.
  ghost predicate CallRule(env: Surroundings, attempted: seq<string>, ending: Ending) {
    var n := |attempted|;
    && (forall i: nat :: i < n ==> Allowed(env, attempted[..i], attempted[i]))
    && (forall i: nat :: i < n - 1 ==> env.attempt(i).Fails?)
    && (if n == 0 then ending.MonitoringConnection? || (ending == EndsAtOnce(env.fetch(0)) && ending.Fallback())
        else
          EndsAtOnce(env.fetch(0)) == Routed &&
          match env.attempt(n - 1)
          case Succeeds => ending == Routed
          case Throws(what) => ending == Error(what)
          case Fails =>
            if env.fetch(n).Cleared? then ending == ResetMidLoop
            else ending == RoutesExhausted && forall text :: !Allowed(env, attempted, text))
  }

  ghost predicate Allowed(env: Surroundings, attempted: seq<string>, text: string) {
    var n := |attempted|;
    && env.fetch(n).Status? && FirstMatch(env.fetch(n).routes, text)
    && (n == 1 ==> text != "") && (n > 1 ==> text != attempted[n - 2])
  }

  function EndsAtOnce(status: Status): Ending {
    match status
    case Cleared => NoStatus
    case Status(known, routes) =>
      if !known then UnknownRole else if routes == [] then NoRoutes else if NoneMatches(routes) then NoMatch else Routed
  }

  lemma OneFirstMatch(routes: seq<Route>, a: string, b: string)
    requires FirstMatch(routes, a) && FirstMatch(routes, b)
    ensures a == b && !NoneMatches(routes)
  {
    var i :| 0 <= i < |routes| && MatchesFirstAt(routes, i) && a == routes[i].text;
    var j :| 0 <= j < |routes| && MatchesFirstAt(routes, j) && b == routes[j].text;
    assert i == j;
  }

  lemma MatchedIsFirst(env: Surroundings, n: nat, text: string)
    ensures Matched(env, n) == Some(text) <==> env.fetch(n).Status? && FirstMatch(env.fetch(n).routes, text)
  {
    if env.fetch(n).Status? {
      var found := FindIf(env.fetch(n).routes);
      if FirstMatch(env.fetch(n).routes, text) {
        if found.Some? {
          OneFirstMatch(env.fetch(n).routes, text, found.value);
        } else {
          OneFirstMatch(env.fetch(n).routes, text, text);
        }
      }
    }
  }

  lemma TriedIsAllowed(env: Surroundings, attempted: seq<string>, text: string)
    requires forall i: nat :: i < |attempted| ==> Matched(env, i) == Some(attempted[i])
    ensures Allowed(env, attempted, text) <==> Tried(env, |attempted|) && Matched(env, |attempted|) == Some(text)
  {
    hide FindIf, FirstMatch, Matched;
    MatchedIsFirst(env, |attempted|, text);
  }

  lemma CallObeysRule(env: Surroundings, attempted: seq<string>, ending: Ending)
    requires CallOf(env, attempted, ending)
    ensures CallRule(env, attempted, ending)
  {
    hide FindIf, FirstMatch, Allowed, Matched, Tried;
    var n := |attempted|;
    forall i: nat | i < n ensures Allowed(env, attempted[..i], attempted[i]) {
      TriedIsAllowed(env, attempted[..i], attempted[i]);
    }
    forall text ensures Allowed(env, attempted, text) <==> Tried(env, n) && Matched(env, n) == Some(text) {
      TriedIsAllowed(env, attempted, text);
    }
    RefusalEndsAtOnce(env);
  }

  lemma RefusalEndsAtOnce(env: Surroundings)
    ensures EndsAtOnce(env.fetch(0)) == Refusal(env.fetch(0))
    ensures env.fetch(0).Status? && env.fetch(0).routes != [] ==> (Tried(env, 0) <==> !NoneMatches(env.fetch(0).routes))
  {
  }

  /** The rule leaves no choice: what is attempted and how the call ends are decided by what is fetched and how attempts end. */
  lemma RuleDecides(env: Surroundings, a: seq<string>, e: Ending, b: seq<string>, f: Ending)
    requires CallRule(env, a, e) && CallRule(env, b, f) && !e.MonitoringConnection? && !f.MonitoringConnection?
    ensures a == b && e == f
  {
    hide FirstMatch, NoneMatches;
    SamePrefix(env, a, e, b, f, if |a| <= |b| then |a| else |b|);
    if |a| < |b| {
      NoShorter(env, a, e, b, f);
    } else if |b| < |a| {
      NoShorter(env, b, f, a, e);
    }
  }

  lemma {:induction false} SamePrefix(env: Surroundings, a: seq<string>, e: Ending, b: seq<string>, f: Ending, n: nat)
    requires CallRule(env, a, e) && CallRule(env, b, f) && n <= |a| && n <= |b|
    ensures a[..n] == b[..n]
  {
    hide FirstMatch;
    if n > 0 {
      SamePrefix(env, a, e, b, f, n - 1);
      assert Allowed(env, a[..n - 1], a[n - 1]) && Allowed(env, b[..n - 1], b[n - 1]);
      OneFirstMatch(env.fetch(n - 1).routes, a[n - 1], b[n - 1]);
      assert a[..n] == a[..n - 1] + [a[n - 1]] && b[..n] == b[..n - 1] + [b[n - 1]];
    }
  }

  // A call goes on only from an attempt that failed, or from routes that are there, ...
  lemma GoesOn(env: Surroundings, b: seq<string>, f: Ending, n: nat)
    requires CallRule(env, b, f) && n < |b|
    ensures Allowed(env, b[..n], b[n])
    ensures if n == 0 then EndsAtOnce(env.fetch(0)) == Routed else env.attempt(n - 1).Fails?
  {
  }

  // ... and stops when there is no other way.
  lemma StopsHere(env: Surroundings, a: seq<string>, e: Ending)
    requires CallRule(env, a, e) && !e.MonitoringConnection?
    ensures if a == [] then EndsAtOnce(env.fetch(0)) != Routed
      else env.attempt(|a| - 1).Fails? ==> forall text :: !Allowed(env, a, text)
  {
  }

  lemma NoShorter(env: Surroundings, a: seq<string>, e: Ending, b: seq<string>, f: Ending)
    requires CallRule(env, a, e) && CallRule(env, b, f) && !e.MonitoringConnection?
    ensures |a| >= |b|
  {
    hide CallRule, Allowed, EndsAtOnce;
    var n := |a|;
    assert a[..n] == a;
    if n < |b| {
      SamePrefix(env, a, e, b, f, n);
      GoesOn(env, b, f, n);
      StopsHere(env, a, e);
    }
  }

  // Between two attempts: every route so far was tried and failed, and the next one is tried if there is one.
  ghost predicate Looping(env: Surroundings, attempted: seq<string>, route: Option<string>, lastFailedRoute: string) {
    var n := |attempted|;
    && AllTried(env, n) && Refusal(env.fetch(0)) == Routed
    && (forall i: nat :: i < n ==> Matched(env, i) == Some(attempted[i]) && env.attempt(i).Fails?)
    && (if route.Some? then Tried(env, n) && Matched(env, n) == route
        else n > 0 && env.fetch(n).Status? && !Tried(env, n))
    && lastFailedRoute == (if n == 0 then "" else attempted[n - 1])
  }

  // Why no route is tried at all, or Routed if one is.
  function Refusal(status: Status): Ending {
    if status.Cleared? then NoStatus
    else if !status.roleKnown then UnknownRole
    else if status.routes == [] then NoRoutes
    else if FindIf(status.routes).None? then NoMatch
    else Routed
  }

  lemma PassedOn(env: Surroundings)
    ensures CallOf(env, [], MonitoringConnection)
  {
  }

  lemma BeforeFirst(env: Surroundings)
    ensures Refusal(env.fetch(0)).Fallback() ==> CallOf(env, [], Refusal(env.fetch(0)))
    ensures !Refusal(env.fetch(0)).Fallback() ==>
      env.fetch(0).Status? && Looping(env, [], FindIf(env.fetch(0).routes), "")
  {
  }

  lemma RoomForAttempt(env: Surroundings, attempted: seq<string>, route: Option<string>, last: string, c: nat)
    requires Looping(env, attempted, route, last) && route.Some? && Changes(env, |attempted|) <= c
    ensures |attempted| < 2 * (c + 1)
  {
    hide Changes, Tried;
    AttemptsAreBounded(env, |attempted| + 1, c);
  }

  lemma OneMoreAttempt(env: Surroundings, attempted: seq<string>, route: Option<string>, last: string)
    requires Looping(env, attempted, route, last) && route.Some?
    ensures var n, more := |attempted|, attempted + [route.value];
      && (env.attempt(n).Throws? ==> CallOf(env, more, Error(env.attempt(n).what)))
      && (env.attempt(n).Succeeds? ==> CallOf(env, more, Routed))
      && (env.attempt(n).Fails? && env.fetch(n + 1).Cleared? ==> CallOf(env, more, ResetMidLoop))
  {
    hide Changes, Matched, LastFailed, Tried;
  }

  lemma NextRoute(env: Surroundings, attempted: seq<string>, route: Option<string>, last: string)
    requires Looping(env, attempted, route, last) && route.Some?
    requires env.attempt(|attempted|).Fails? && env.fetch(|attempted| + 1).Status?
    ensures var found := FindIf(env.fetch(|attempted| + 1).routes);
      var next := if found == Some(last) then None else found;
      Looping(env, attempted + [route.value], next, route.value)
  {
    hide FindIf, FirstMatch, NoneMatches, Refusal;
    var n, more := |attempted|, attempted + [route.value];
    assert LastFailed(env, n + 1) == last;
    assert forall i: nat :: i < n + 1 ==> Tried(env, i);
  }

  lemma OutOfRoutes(env: Surroundings, attempted: seq<string>, last: string)
    requires Looping(env, attempted, None, last)
    ensures CallOf(env, attempted, RoutesExhausted)
  {
  }

  class Dbc {
    var connAttr: ConnAttr

    constructor (connAttr: ConnAttr)
      ensures this.connAttr == connAttr
    {
      this.connAttr := connAttr;
    }
  }

  /** Connect ends after at most 2(c + 1) attempts, for the reason the rule gives, and however it ends the connection
      attributes are as they were when it was called: before a fallback, after a success and after an exception. */
  method Connect(dbc: Dbc, env: Surroundings, ghost c: nat) returns (ending: Ending, attempted: seq<string>)
    requires forall n: nat :: Changes(env, n) <= c
    modifies dbc
    ensures CallOf(env, attempted, ending) && |attempted| <= 2 * (c + 1)
    ensures CallRule(env, attempted, ending)
    ensures ending.MonitoringConnection? <==> MONITORING_CONN_UUID in dbc.connAttr
    ensures dbc.connAttr == old(dbc.connAttr)
  {
    hide CallOf, CallRule, Looping, Changes;
    attempted := [];
    if MONITORING_CONN_UUID in dbc.connAttr {
      PassedOn(env);
      CallObeysRule(env, [], MonitoringConnection);
      return MonitoringConnection, attempted;
    }
    var status := env.fetch(0);
    var route := if status.Status? then FindIf(status.routes) else None;
    ending := Refusal(status);
    BeforeFirst(env);
    if ending.Fallback() {
      CallObeysRule(env, [], ending);
      return;
    }
    var originalConnAttr := dbc.connAttr;
    var lastFailedRoute := "";
    var succeeded := false;
    while route.Some? && !succeeded
      invariant if succeeded then CallOf(env, attempted, Routed) else Looping(env, attempted, route, lastFailedRoute)
      invariant |attempted| <= 2 * (c + 1)
      decreases 2 * (c + 1) - |attempted|
    {
      RoomForAttempt(env, attempted, route, lastFailedRoute, c);
      OneMoreAttempt(env, attempted, route, lastFailedRoute);
      ghost var before := attempted;
      var n, currentRoute := |attempted|, route.value;
      attempted := attempted + [currentRoute];
      dbc.connAttr := env.rewrite(n, dbc.connAttr);
      var outcome := env.attempt(n);
      if outcome.Throws? {
        CallObeysRule(env, attempted, Error(outcome.what));
        dbc.connAttr := originalConnAttr;
        return Error(outcome.what), attempted;
      }
      succeeded := outcome.Succeeds?;
      if !succeeded {
        status := env.fetch(n + 1);
        if status.Cleared? {
          CallObeysRule(env, attempted, ResetMidLoop);
          dbc.connAttr := originalConnAttr;
          return ResetMidLoop, attempted;
        }
        NextRoute(env, before, route, lastFailedRoute);
        route := FindIf(status.routes);
        if route.Some? && route.value == lastFailedRoute {
          route := None;
        }
        lastFailedRoute := currentRoute;
      }
    }
    if !succeeded {
      OutOfRoutes(env, attempted, lastFailedRoute);
      CallObeysRule(env, attempted, RoutesExhausted);
      dbc.connAttr := originalConnAttr;
      return RoutesExhausted, attempted;
    }
    CallObeysRule(env, attempted, Routed);
    dbc.connAttr := originalConnAttr;
    ending := Routed;
  }

  /** Execute has the same loop, the same rule and the same bound. */
  method Execute(env: Surroundings, ghost c: nat) returns (ending: Ending, attempted: seq<string>)
    requires forall n: nat :: Changes(env, n) <= c
    ensures CallOf(env, attempted, ending) && |attempted| <= 2 * (c + 1) && !ending.MonitoringConnection?
    ensures CallRule(env, attempted, ending)
  {
    hide CallOf, CallRule, Looping, Changes;
    attempted := [];
    var status := env.fetch(0);
    var route := if status.Status? then FindIf(status.routes) else None;
    ending := Refusal(status);
    BeforeFirst(env);
    if ending.Fallback() {
      CallObeysRule(env, [], ending);
      return;
    }
    var lastFailedRoute := "";
    var succeeded := false;
    while route.Some? && !succeeded
      invariant if succeeded then CallOf(env, attempted, Routed) else Looping(env, attempted, route, lastFailedRoute)
      invariant |attempted| <= 2 * (c + 1)
      decreases 2 * (c + 1) - |attempted|
    {
      RoomForAttempt(env, attempted, route, lastFailedRoute, c);
      OneMoreAttempt(env, attempted, route, lastFailedRoute);
      ghost var before := attempted;
      var n, currentRoute := |attempted|, route.value;
      attempted := attempted + [currentRoute];
      var outcome := env.attempt(n);
      if outcome.Throws? {
        CallObeysRule(env, attempted, Error(outcome.what));
        return Error(outcome.what), attempted;
      }
      succeeded := outcome.Succeeds?;
      if !succeeded {
        status := env.fetch(n + 1);
        if status.Cleared? {
          CallObeysRule(env, attempted, ResetMidLoop);
          return ResetMidLoop, attempted;
        }
        NextRoute(env, before, route, lastFailedRoute);
        route := FindIf(status.routes);
        if route.Some? && route.value == lastFailedRoute {
          route := None;
        }
        lastFailedRoute := currentRoute;
      }
    }
    if succeeded {
      CallObeysRule(env, attempted, Routed);
      return Routed, attempted;
    }
    OutOfRoutes(env, attempted, lastFailedRoute);
    CallObeysRule(env, attempted, RoutesExhausted);
    ending := RoutesExhausted;
  }
}
