/** Runs of calls on one selector: what the calls return, one after the other, for the same hosts and properties. */
module RoundRobinRuns {

  import opened Options
  import opened Hosts
  import opened HostOrder
  import opened SlidingCache
  import opened SlidingCacheMaps
  import opened RoundRobinSchedule
  import opened RoundRobinHostSelectors
  import opened WeightStrings

  // The clock before the first call and after each; a call and the one before it together take less than an
  // entry lives.
  predicate CloseCalls(times: seq<Time>) {
    && (|times| > 1 ==> times[1] - times[0] < DEFAULT_EXPIRATION_MS)
    && (forall i :: 2 <= i < |times| ==> times[i] - times[i - 2] < DEFAULT_EXPIRATION_MS)
  }

  // The record after a number of calls that found its weights fixed.
  ghost predicate Scheduled(r: Record, props: Props, selection: seq<HostInfo>, weights: seq<int>, n: nat)
    requires selection != [] && |weights| == |selection|
  {
    Reflects(r, props) && WeightsFor(r, selection) == weights && r.CurrentTurn() == TurnAfter(Names(selection), weights, n)
  }

  lemma FirstCall(props: Props, selection: seq<HostInfo>, left: Record, choice: Choice)
    requires selection != [] && Created(props).1.None? && Answered(None, props, selection, left, choice)
    ensures var weights := WeightsFor(Created(props).0, selection);
      && choice == Chosen(selection[Pick(Names(selection), weights, 0)])
      && Scheduled(left, props, selection, weights, 1)
  {
    var made := Created(props).0;
    RefreshedOnce(made, props, made);
    NewRecordHasNoTurn(props);
    hide Created, Refreshed;
    var names, weights := Names(selection), WeightsFor(made, selection);
    assert made.CurrentTurn() == FRESH == TurnAfter(names, weights, 0);
    assert TurnAfter(names, weights, 1) == NextTurn(names, weights, FRESH);
    AdvancedTurn(made, selection);
  }

  /** A call whose string of weights differs from the last one read is the first of a new schedule, with the weights it reads now,
      whatever was chosen before. */
  lemma ChangedCall(was: Record, props: Props, selection: seq<HostInfo>, left: Record, choice: Choice)
    requires selection != [] && Answered(Some(was), props, selection, left, choice) && Refreshed(was, props).1.None?
    requires HOST_WEIGHT_KEY in props && props[HOST_WEIGHT_KEY] != was.lastWeightString
    ensures var weights := WeightsFor(Refreshed(was, props).0, selection);
      && choice == Chosen(selection[Pick(Names(selection), weights, 0)])
      && Scheduled(left, props, selection, weights, 1)
  {
    NewWeightsRestart(was, props);
    var made := Refreshed(was, props).0;
    RefreshedOnce(was, props, made);
    hide Refreshed;
    var names, weights := Names(selection), WeightsFor(made, selection);
    assert made.CurrentTurn() == FRESH == TurnAfter(names, weights, 0);
    assert TurnAfter(names, weights, 1) == NextTurn(names, weights, FRESH);
    AdvancedTurn(made, selection);
  }

  lemma NewRecordHasNoTurn(props: Props)
    ensures Created(props).0.CurrentTurn() == FRESH
  {
  }

  lemma AdvancedTurn(r: Record, selection: seq<HostInfo>)
    requires selection != []
    ensures var left := Advanced(r, selection);
      && left.CurrentTurn() == NextTurn(Names(selection), WeightsFor(r, selection), r.CurrentTurn())
      && WeightsFor(left, selection) == WeightsFor(r, selection)
  {
  }

  lemma NextCall(
    was: Record, props: Props, selection: seq<HostInfo>, weights: seq<int>, n: nat, left: Record, choice: Choice)
    requires selection != [] && |weights| == |selection| && Scheduled(was, props, selection, weights, n)
    requires Answered(Some(was), props, selection, left, choice)
    ensures choice == Chosen(selection[Pick(Names(selection), weights, n)])
    ensures Scheduled(left, props, selection, weights, n + 1)
  {
    assert Refreshed(was, props) == (was, None);
    hide Refreshed;
    AdvancedTurn(was, selection);
  }

  // A record that still serves the whole selection is the one the call finds first.
  lemma ServingIsFound(
    before: Entries, selection: seq<HostInfo>, from: Time, to: Time, first: nat, info: RoundRobinClusterInfo?,
    serving: RoundRobinClusterInfo, until: Time)
    requires selection != [] && Origin(before, selection, from, to, first, info)
    requires Serves(before, serving, selection, until) && until > to
    ensures first == 0 && info == serving
  {
    assert selection[0] in selection;
    assert Fresh(before, selection[0].host, to);
  }

  // Every entry of the hosts, if there is one, has expired.
  ghost predicate NoneFresh(entries: Entries, hosts: seq<HostInfo>, now: Time) {
    forall k :: 0 <= k < |hosts| ==> !Fresh(entries, hosts[k].host, now)
  }

  lemma NothingIsFound(
    before: Entries, selection: seq<HostInfo>, last: Time, from: Time, to: Time, first: nat, info: RoundRobinClusterInfo?)
    requires Origin(before, selection, from, to, first, info)
    requires NoneFresh(before, selection, last) && last <= from
    ensures first >= |selection|
  {
  }

  ghost predicate AsScheduled(choices: seq<Choice>, selection: seq<HostInfo>, weights: seq<int>) {
    && selection != [] && |weights| == |selection|
    && forall i: nat :: i < |choices| ==> choices[i] == Chosen(selection[Pick(Names(selection), weights, i)])
  }

  // The state between two calls of a run: before the first, no host has a fresh entry; later, a record on schedule
  // serves them all until an entry made during the last call would expire.
  ghost predicate Between(
    entries: Entries, props: Props, selection: seq<HostInfo>, weights: seq<int>, n: nat, serving: Option<Record>,
    info: RoundRobinClusterInfo?, last: Time)
    requires selection != [] && |weights| == |selection|
  {
    if n == 0 then
      weights == WeightsFor(Created(props).0, selection) && NoneFresh(entries, selection, last)
    else
      && info != null && serving.Some? && Serves(entries, info, selection, last + DEFAULT_EXPIRATION_MS)
      && Scheduled(serving.value, props, selection, weights, n)
  }

  lemma CallInRun(
    before: Entries, props: Props, selection: seq<HostInfo>, weights: seq<int>, n: nat, serving: Option<Record>,
    info: RoundRobinClusterInfo?, last: Time, from: Time, to: Time, first: nat, used: RoundRobinClusterInfo?)
    requires selection != [] && |weights| == |selection| && Between(before, props, selection, weights, n, serving, info, last)
    requires Origin(before, selection, from, to, first, used) && last <= from && to - last < DEFAULT_EXPIRATION_MS
    ensures if n == 0 then first >= |selection| else first == 0 && used == info
  {
    hide Fresh;
    if n == 0 {
      NothingIsFound(before, selection, last, from, to, first, used);
    } else {
      ServingIsFound(before, selection, from, to, first, used, info, last + DEFAULT_EXPIRATION_MS);
    }
  }

  lemma AfterCall(
    props: Props, selection: seq<HostInfo>, weights: seq<int>, n: nat, was: Option<Record>, left: Record, choice: Choice)
    requires selection != [] && |weights| == |selection| && Answered(was, props, selection, left, choice)
    requires if n == 0 then was.None? && Created(props).1.None? && weights == WeightsFor(Created(props).0, selection)
             else was.Some? && Scheduled(was.value, props, selection, weights, n)
    ensures choice == Chosen(selection[Pick(Names(selection), weights, n)])
    ensures Scheduled(left, props, selection, weights, n + 1)
  {
    if n == 0 {
      FirstCall(props, selection, left, choice);
    } else {
      NextCall(was.value, props, selection, weights, n, left, choice);
    }
  }

  function ValueIn(info: RoundRobinClusterInfo?): Option<Record>
    reads info
  {
    if info == null then None else Some(info.Value())
  }

  /** Call n of a run: it goes by the schedule unless an entry may have expired since the call before. */
  method CallNumber(
    selector: RoundRobinHostSelector, hosts: seq<HostInfo>, isWriter: bool, props: Props, n: nat,
    selection: seq<HostInfo>, ghost weights: seq<int>, ghost info: RoundRobinClusterInfo?, ghost last: Time,
    ghost onTime: bool)
    returns (choice: Choice, ghost used: RoundRobinClusterInfo?)
    requires selector.Valid() && IsSortOf(selection, Eligible(hosts, isWriter)) && DistinctNames(selection)
    requires selection != [] && |weights| == |selection| && Created(props).1.None?
    requires last <= selector.roundRobinCache.clock.time && (info != null ==> info in selector.records)
    requires onTime ==> Between(selector.roundRobinCache.cache, props, selection, weights, n, ValueIn(info), info, last)
    modifies selector`records, selector.roundRobinCache, selector.roundRobinCache.clock, selector.records
    ensures selector.Valid() && fresh(selector.records - old(selector.records))
    ensures old(selector.roundRobinCache.clock.time) <= selector.roundRobinCache.clock.time
    ensures used != null ==> used in selector.records
    ensures onTime && selector.roundRobinCache.clock.time - last < DEFAULT_EXPIRATION_MS ==>
      && choice == Chosen(selection[Pick(Names(selection), weights, n)])
      && Between(selector.roundRobinCache.cache, props, selection, weights, n + 1, ValueIn(used), used,
                 old(selector.roundRobinCache.clock.time))
  {
    hide Scheduled, Origin, Serves, Eligible, Created, DistinctNames, Stamped, LeadTo, SortedByName;
    ghost var before, from := selector.roundRobinCache.cache, selector.roundRobinCache.clock.time;
    ghost var was := ValueIn(info);
    ghost var sorted, first;
    choice, sorted, used, first := selector.GetHost(hosts, isWriter, props);
    SortIsUnique(selection, sorted);
    ghost var to := selector.roundRobinCache.clock.time;
    if onTime && to - last < DEFAULT_EXPIRATION_MS {
      CallInRun(before, props, selection, weights, n, was, info, last, from, to, first, used);
      AfterCall(props, selection, weights, n, if n == 0 then None else was, used.Value(), choice);
    }
  }

  /**
   * Weighted round robin over a run of calls, starting with no fresh entry for a host of the selection: call i
   * returns the host whose prefix-weight interval holds i mod W, as long as calls are closer together than
   * entries live. The weights are those the properties give.
   */
  method RepeatedCalls(selector: RoundRobinHostSelector, hosts: seq<HostInfo>, isWriter: bool, props: Props, n: nat)
    returns (choices: seq<Choice>, selection: seq<HostInfo>, ghost times: seq<Time>)
    requires selector.Valid() && Eligible(hosts, isWriter) != [] && DistinctNames(Eligible(hosts, isWriter))
    requires Created(props).1.None?
    requires NoneFresh(selector.roundRobinCache.cache, Eligible(hosts, isWriter), selector.roundRobinCache.clock.time)
    modifies selector`records, selector.roundRobinCache, selector.roundRobinCache.clock, selector.records
    ensures selector.Valid() && |choices| == n && |times| == n + 1 && IsSortOf(selection, Eligible(hosts, isWriter))
    ensures SelectsFrom(selection, hosts, isWriter)
    ensures forall i :: 0 < i <= n ==> times[i - 1] <= times[i]
    ensures CloseCalls(times) ==> AsScheduled(choices, selection, WeightsFor(Created(props).0, selection))
  {
    hide Scheduled, Origin, Serves, Eligible, Created, DistinctNames, Stamped, LeadTo, Between, SortedByName, SelectsFrom;
    var c := selector.roundRobinCache;
    var eligible := SelectEligible(hosts, isWriter);
    selection := SortByName(eligible);
    SortKeepsLength(selection, eligible);
    DistinctPermutes(selection, eligible);
    SortedSelects(selection, eligible, hosts, isWriter);
    ghost var weights := WeightsFor(Created(props).0, selection);
    ghost var info: RoundRobinClusterInfo? := null;
    NoneIsBetween(c.cache, props, eligible, selection, c.clock.time);
    choices, times := [], [c.clock.time];
    for i := 0 to n
      invariant selector.Valid() && fresh(selector.records - old(selector.records))
      invariant |choices| == i && |times| == i + 1 && times[i] == c.clock.time
      invariant forall j :: 0 < j <= i ==> times[j - 1] <= times[j]
      invariant info != null ==> info in selector.records
      invariant CloseCalls(times) ==> AsScheduled(choices, selection, weights)
      invariant CloseCalls(times) ==>
        Between(c.cache, props, selection, weights, i, ValueIn(info), info, times[if i == 0 then 0 else i - 1])
    {
      ghost var last := times[if i == 0 then 0 else i - 1];
      ghost var onTime, earlier, was := CloseCalls(times), times, choices;
      var choice, used := CallNumber(selector, hosts, isWriter, props, i, selection, weights, info, last, onTime);
      choices, times, info := choices + [choice], times + [c.clock.time], used;
      OneMoreIsClose(earlier, c.clock.time);
      if CloseCalls(times) {
        OneMoreAsScheduled(was, choice, selection, weights);
      }
    }
  }

  lemma OneMoreIsClose(times: seq<Time>, now: Time)
    requires times != []
    ensures CloseCalls(times + [now]) ==>
      CloseCalls(times) && now - times[if |times| == 1 then 0 else |times| - 2] < DEFAULT_EXPIRATION_MS
  {
    var more := times + [now];
    if CloseCalls(more) {
      assert forall i :: 0 <= i < |times| ==> more[i] == times[i];
      assert more[|times|] == now;
    }
  }

  lemma OneMoreAsScheduled(choices: seq<Choice>, choice: Choice, selection: seq<HostInfo>, weights: seq<int>)
    requires AsScheduled(choices, selection, weights)
    requires choice == Chosen(selection[Pick(Names(selection), weights, |choices|)])
    ensures AsScheduled(choices + [choice], selection, weights)
  {
  }

  lemma NoneIsBetween(entries: Entries, props: Props, eligible: seq<HostInfo>, selection: seq<HostInfo>, now: Time)
    requires selection != [] && multiset(selection) == multiset(eligible)
    requires NoneFresh(entries, eligible, now)
    ensures Between(entries, props, selection, WeightsFor(Created(props).0, selection), 0, None, null, now)
  {
    forall k | 0 <= k < |selection| ensures !Fresh(entries, selection[k].host, now) {
      assert selection[k] in multiset(selection);
      assert selection[k] in multiset(eligible);
    }
  }

  lemma SelectionIsSchedulable(props: Props, selection: seq<HostInfo>)
    requires DistinctNames(selection) && selection != []
    ensures Schedulable(Names(selection), WeightsFor(Created(props).0, selection))
  {
    RecordsStayValid(NEW_RECORD, props);
    var names, weights := Names(selection), WeightsFor(Created(props).0, selection);
    hide Created;
    forall i, j | 0 <= i < j < |names| ensures names[i] != names[j] {
      assert selection[i].host != selection[j].host;
    }
  }

  /** The run in closed form: call i returned host j exactly when j's interval of prefix weights holds i mod W. */
  lemma RunInClosedForm(choices: seq<Choice>, selection: seq<HostInfo>, props: Props, i: nat, j: nat)
    requires DistinctNames(selection) && i < |choices| && j < |selection|
    requires AsScheduled(choices, selection, WeightsFor(Created(props).0, selection))
    ensures var weights := WeightsFor(Created(props).0, selection);
      && Total(weights) >= 1
      && (choices[i] == Chosen(selection[j])
          <==> Prefix(weights, j) <= Residue(i, Total(weights)) < Prefix(weights, j + 1))
  {
    hide Created, Prefix, Residue, Pick, Total, DistinctNames, Schedulable, WeightsFor;
    SelectionIsSchedulable(props, selection);
    var names, weights := Names(selection), WeightsFor(Created(props).0, selection);
    ClosedForm(names, weights, i);
    var pick := Pick(names, weights, i);
    assert choices[i] == Chosen(selection[pick]);
    SameHostSameIndex(selection, pick, j);
    assert pick == j <==> Prefix(weights, j) <= Residue(i, Total(weights)) < Prefix(weights, j + 1);
  }

  lemma SameHostSameIndex(selection: seq<HostInfo>, i: nat, j: nat)
    requires DistinctNames(selection) && i < |selection| && j < |selection|
    ensures selection[i] == selection[j] <==> i == j
  {
  }

  /** The weights that SetRoundRobinWeight prints are the ones the schedule goes on with when a record is refreshed from them. */
  lemma PrintedWeightsTakeOver(was: Record, hosts: seq<HostInfo>, props: Props, selection: seq<HostInfo>)
    requires PrintableList(hosts) && DEFAULT_WEIGHT_KEY !in props
    requires HOST_WEIGHT_KEY in props && props[HOST_WEIGHT_KEY] == Printed(hosts) != was.lastWeightString
    requires forall h :: h in selection ==> h in hosts
    ensures Refreshed(was, props).1.None?
    ensures forall i :: 0 <= i < |selection| ==> WeightsFor(Refreshed(was, props).0, selection)[i] == selection[i].weight
  {
    RoundTrip(hosts, was.weights, was.lastWeightString);
    hide ReadString, Printed;
    forall i | 0 <= i < |selection|
      ensures WeightsFor(Refreshed(was, props).0, selection)[i] == selection[i].weight
    {
      assert selection[i] in hosts;
      var k :| 0 <= k < |hosts| && hosts[k] == selection[i];
    }
  }

  /** The weights that SetRoundRobinWeight printed are the ones the schedule runs on. */
  lemma PrintedWeightsDrive(hosts: seq<HostInfo>, props: Props, selection: seq<HostInfo>)
    requires PrintableList(hosts) && DEFAULT_WEIGHT_KEY !in props
    requires HOST_WEIGHT_KEY in props && props[HOST_WEIGHT_KEY] == Printed(hosts)
    requires forall h :: h in selection ==> h in hosts
    ensures Created(props).1.None?
    ensures forall i :: 0 <= i < |selection| ==> WeightsFor(Created(props).0, selection)[i] == selection[i].weight
  {
    RoundTrip(hosts, map[], "");
    hide ReadString, Printed;
    forall i | 0 <= i < |selection| ensures WeightsFor(Created(props).0, selection)[i] == selection[i].weight {
      assert selection[i] in hosts;
      var k :| 0 <= k < |hosts| && hosts[k] == selection[i];
    }
  }
}
