/**
 * The class RoundRobinHostSelector: one mutable record per cluster, shared by the cache entries of all the
 * hosts it was last used with. A call is proved to do to that record what the schedule says, and a run of calls
 * to return the closed form.
 */
module RoundRobinHostSelectors {

  import opened Options
  import opened Hosts
  import opened HostOrder
  import opened Clocks
  import opened SlidingCache
  import opened SlidingCacheMaps
  import opened RoundRobinSchedule
  import opened WeightStrings

  // ---------- the record as a value ----------

  datatype Record = Record(
    lastHost: Option<HostInfo>,
    weights: map<string, int>,
    defaultWeight: int,
    weightCounter: int,
    lastDefaultString: string,
    lastWeightString: string)
  {
    ghost predicate Valid() { defaultWeight >= 1 && InRange(weights) }

    function LastName(): Option<string> { if lastHost.Some? then Some(lastHost.value.host) else None }

    function CurrentTurn(): Turn { Turn(LastName(), weightCounter) }

    function WeightOf(name: string): int { if name in weights then weights[name] else defaultWeight }
  }

  const NEW_RECORD := Record(None, map[], 1, 0, "", "")

  datatype SelectError = NoAvailableHosts | BadDefaultWeight | BadHostWeight(error: WeightError)

  type Props = map<string, string>

  function Names(hosts: seq<HostInfo>): (names: seq<string>)
    ensures |names| == |hosts|
  {
    seq(|hosts|, i requires 0 <= i < |hosts| => hosts[i].host)
  }

  function WeightsFor(r: Record, hosts: seq<HostInfo>): (weights: seq<int>)
    ensures |weights| == |hosts|
  {
    seq(|hosts|, i requires 0 <= i < |hosts| => r.WeightOf(hosts[i].host))
  }

  predicate PropChanged(value: string, name: string, props: Props) { name in props && value != props[name] }

  // Each update yields the record as it is left, also when it fails half way.
  function WithDefaultWeight(r: Record, props: Props): (Record, Option<SelectError>) {
    if DEFAULT_WEIGHT_KEY !in props then (r.(defaultWeight := DEFAULT_WEIGHT), None)
    else
      match ConvertToInt(props[DEFAULT_WEIGHT_KEY])
      case None => (r, Some(BadDefaultWeight))
      case Some(weight) =>
        if weight < DEFAULT_WEIGHT then (r, Some(BadDefaultWeight))
        else (r.(defaultWeight := weight, lastDefaultString := props[DEFAULT_WEIGHT_KEY]), None)
  }

  function WithHostWeights(r: Record, props: Props): (Record, Option<SelectError>) {
    if HOST_WEIGHT_KEY !in props then (r, None)
    else
      var reading := ReadString(props[HOST_WEIGHT_KEY], r.weights, r.lastWeightString);
      (r.(weights := reading.weights, lastWeightString := reading.lastString),
       if reading.error.Some? then Some(BadHostWeight(reading.error.value)) else None)
  }

  function Created(props: Props): (Record, Option<SelectError>) {
    var (r, error) := WithDefaultWeight(NEW_RECORD, props);
    if error.Some? then (r, error) else WithHostWeights(r, props)
  }

  function Refreshed(r: Record, props: Props): (Record, Option<SelectError>) {
    var (r1, error) :=
      if PropChanged(r.lastDefaultString, DEFAULT_WEIGHT_KEY, props)
      then WithDefaultWeight(r.(defaultWeight := 1), props) else (r, None);
    if error.None? && PropChanged(r1.lastWeightString, HOST_WEIGHT_KEY, props)
    then WithHostWeights(r1.(lastHost := None, weightCounter := 0), props)
    else (r1, error)
  }

  function TargetOf(r: Record, hosts: seq<HostInfo>): (i: nat)
    requires hosts != []
    ensures i < |hosts|
  {
    Target(Names(hosts), r.CurrentTurn())
  }

  function Advanced(r: Record, hosts: seq<HostInfo>): Record
    requires hosts != []
  {
    var next := NextTurn(Names(hosts), WeightsFor(r, hosts), r.CurrentTurn());
    r.(lastHost := Some(hosts[TargetOf(r, hosts)]), weightCounter := next.weightCounter)
  }

  lemma UpdatesKeepValid(r: Record, props: Props)
    requires r.Valid()
    ensures WithDefaultWeight(r, props).0.Valid() && WithHostWeights(r, props).0.Valid()
  {
    if HOST_WEIGHT_KEY in props && props[HOST_WEIGHT_KEY] != "" {
      var whole := props[HOST_WEIGHT_KEY];
      WeightsStayInRange(Tokens(whole, ','), whole, r.weights, r.lastWeightString);
    }
  }

  // A reading that succeeds remembers the string it read.
  lemma {:induction false} ReadingRemembers(groups: seq<string>, whole: string, weights: map<string, int>, last: string)
    requires ReadGroups(groups, whole, weights, last).error.None?
    ensures ReadGroups(groups, whole, weights, last).lastString == if groups == [] then last else whole
  {
    if groups != [] {
      var group := ReadGroup(groups[0]);
      ReadingRemembers(groups[1..], whole, weights[group.host := group.weight], whole);
    }
  }

  // The record already reflects the properties.
  predicate Reflects(r: Record, props: Props) {
    !PropChanged(r.lastDefaultString, DEFAULT_WEIGHT_KEY, props) && !PropChanged(r.lastWeightString, HOST_WEIGHT_KEY, props)
  }

  /** A record made or refreshed without error from some properties is not changed by the same properties again. */
  lemma RefreshedOnce(r: Record, props: Props, made: Record)
    requires Created(props) == (made, None) || Refreshed(r, props) == (made, None)
    ensures Reflects(made, props) && Refreshed(made, props) == (made, None)
  {
    if HOST_WEIGHT_KEY in props && props[HOST_WEIGHT_KEY] != "" {
      var whole := props[HOST_WEIGHT_KEY];
      var (r1, _) := WithDefaultWeight(NEW_RECORD, props);
      var (r2, _) := WithDefaultWeight(r.(defaultWeight := 1), props);
      Remembers(r1, whole);
      Remembers(r2, whole);
      Remembers(r, whole);
    }
  }

  lemma Remembers(r: Record, whole: string)
    requires whole != ""
    ensures var reading := ReadString(whole, r.weights, r.lastWeightString);
      reading.error.None? ==> reading.lastString == whole
  {
    var groups := Tokens(whole, ',');
    if ReadGroups(groups, whole, r.weights, r.lastWeightString).error.None? {
      ReadingRemembers(groups, whole, r.weights, r.lastWeightString);
    }
  }

  // ---------- what a change of the properties does ----------

  /** The default weight: 1 without the property, else its number, which must be 1 or more. */
  lemma DefaultWeightRead(r: Record, props: Props)
    ensures var (r', error) := WithDefaultWeight(r, props);
      if DEFAULT_WEIGHT_KEY !in props then r' == r.(defaultWeight := 1) && error == None
      else
        var text := props[DEFAULT_WEIGHT_KEY];
        if exists v :: ReadsDefault(text, v)
        then error == None && ReadsDefault(text, r'.defaultWeight)
          && r' == r.(defaultWeight := r'.defaultWeight, lastDefaultString := text)
        else error == Some(BadDefaultWeight) && r' == r
  {
    hide ConvertToInt;
    if DEFAULT_WEIGHT_KEY in props && ConvertToInt(props[DEFAULT_WEIGHT_KEY]).Some? {
      var v := ConvertToInt(props[DEFAULT_WEIGHT_KEY]).value;
      assert v >= 1 ==> ReadsDefault(props[DEFAULT_WEIGHT_KEY], v);
    }
  }

  predicate ReadsDefault(text: string, weight: int) { weight >= 1 && ConvertToInt(text) == Some(weight) }

  /** A string of weights that differs from the last one read starts the schedule anew, whatever the string says, and nothing
      else does; a default weight that cannot be read ends the call before. */
  lemma NewWeightsRestart(r: Record, props: Props)
    ensures var (r', error) := Refreshed(r, props);
      if HOST_WEIGHT_KEY in props && props[HOST_WEIGHT_KEY] != r.lastWeightString && error != Some(BadDefaultWeight)
      then r'.CurrentTurn() == FRESH && r'.lastHost == None
      else r'.(defaultWeight := r.defaultWeight, lastDefaultString := r.lastDefaultString) == r
  {
    hide ReadString, ConvertToInt;
  }

  /** The default weight after a call: the number in the property if the property changed, 1 if that cannot be read, and what it
      was otherwise. */
  lemma NewDefaultIsRead(r: Record, props: Props)
    ensures var (r', error) := Refreshed(r, props);
      if DEFAULT_WEIGHT_KEY in props && props[DEFAULT_WEIGHT_KEY] != r.lastDefaultString
      then
        if error == Some(BadDefaultWeight) then r'.defaultWeight == 1 && r'.lastDefaultString == r.lastDefaultString
        else ReadsDefault(props[DEFAULT_WEIGHT_KEY], r'.defaultWeight) && r'.lastDefaultString == props[DEFAULT_WEIGHT_KEY]
      else error != Some(BadDefaultWeight) && r'.defaultWeight == r.defaultWeight && r'.lastDefaultString == r.lastDefaultString
  {
    hide ReadString, ConvertToInt;
  }

  /** A malformed string of weights fails the call that finds it. A later call with the same properties fails again if and only if
      the very first pair is malformed: otherwise the string counts as read, and the pairs before the bad one are used. */
  lemma MalformedReportedAgain(r: Record, props: Props, n: nat)
    requires HOST_WEIGHT_KEY in props && props[HOST_WEIGHT_KEY] != "" && props[HOST_WEIGHT_KEY] != r.lastWeightString
    requires GoodUpTo(Tokens(props[HOST_WEIGHT_KEY], ','), n) && n < |Tokens(props[HOST_WEIGHT_KEY], ',')|
    requires Refreshed(r, props).1 != Some(BadDefaultWeight)
    ensures var bad := ReadGroup(Tokens(props[HOST_WEIGHT_KEY], ',')[n]).error;
      var (r1, error) := Refreshed(r, props);
      && error == Some(BadHostWeight(bad))
      && (if n == 0 then Refreshed(r1, props).1 == error else Refreshed(r1, props) == (r1, None))
  {
    hide ReadGroup, ConvertToInt, Tokens;
    var whole := props[HOST_WEIGHT_KEY];
    var groups := Tokens(whole, ',');
    var (r0, _) := if PropChanged(r.lastDefaultString, DEFAULT_WEIGHT_KEY, props)
      then WithDefaultWeight(r.(defaultWeight := 1), props) else (r, None);
    ReadsUntilMalformed(groups, whole, r0.weights, r0.lastWeightString, n, "");
    var (r1, _) := Refreshed(r, props);
    ReadsUntilMalformed(groups, whole, r1.weights, r1.lastWeightString, n, "");
  }

  // ---------- the shared record and the selector ----------

  class RoundRobinClusterInfo {

    var lastHost: Option<HostInfo>
    var clusterWeightMap: map<string, int>
    var defaultWeight: int
    var weightCounter: int
    var lastDefaultWeightStr: string
    var lastHostWeightStr: string

    function Value(): Record
      reads this
    {
      Record(lastHost, clusterWeightMap, defaultWeight, weightCounter, lastDefaultWeightStr, lastHostWeightStr)
    }

    constructor ()
      ensures Value() == NEW_RECORD
    {
      lastHost, clusterWeightMap, defaultWeight, weightCounter := None, map[], 1, 0;
      lastDefaultWeightStr, lastHostWeightStr := "", "";
    }

    method UpdatePropsDefaultWeight(props: Props) returns (error: Option<SelectError>)
      modifies this
      ensures (Value(), error) == WithDefaultWeight(old(Value()), props)
    {
      var setWeight := DEFAULT_WEIGHT;
      if DEFAULT_WEIGHT_KEY in props {
        var converted := ConvertToInt(props[DEFAULT_WEIGHT_KEY]);
        if converted.None? || converted.value < DEFAULT_WEIGHT {
          return Some(BadDefaultWeight);
        }
        setWeight := converted.value;
        lastDefaultWeightStr := props[DEFAULT_WEIGHT_KEY];
      }
      defaultWeight := setWeight;
      return None;
    }

    method UpdatePropsHostWeight(props: Props) returns (error: Option<SelectError>)
      modifies this
      ensures (Value(), error) == WithHostWeights(old(Value()), props)
    {
      if HOST_WEIGHT_KEY !in props {
        return None;
      }
      var hostWeightsStr := props[HOST_WEIGHT_KEY];
      if hostWeightsStr == "" {
        clusterWeightMap := map[];
        lastHostWeightStr := "";
        return None;
      }
      var groups := Split(hostWeightsStr, ',');
      ghost var whole := ReadGroups(groups, hostWeightsStr, clusterWeightMap, lastHostWeightStr);
      for i := 0 to |groups|
        invariant ReadGroups(groups[i..], hostWeightsStr, clusterWeightMap, lastHostWeightStr) == whole
        invariant Value() == old(Value()).(weights := clusterWeightMap, lastWeightString := lastHostWeightStr)
      {
        assert groups[i..][0] == groups[i] && groups[i..][1..] == groups[i + 1..];
        var parts := Split(groups[i], ':');
        if |parts| != 2 {
          return Some(BadHostWeight(InvalidFormat));
        }
        if parts[0] == "" || parts[1] == "" {
          return Some(BadHostWeight(MissingPart));
        }
        var converted := ConvertToInt(parts[1]);
        if converted.None? || converted.value < DEFAULT_WEIGHT {
          return Some(BadHostWeight(NotParsable));
        }
        clusterWeightMap := clusterWeightMap[parts[0] := converted.value];
        lastHostWeightStr := hostWeightsStr;
      }
      return None;
    }

    // The two updates of a record that is already in use, each only if its property has changed.
    method RefreshProps(props: Props) returns (error: Option<SelectError>)
      modifies this
      ensures (Value(), error) == Refreshed(old(Value()), props)
    {
      if PropChanged(lastDefaultWeightStr, DEFAULT_WEIGHT_KEY, props) {
        defaultWeight := 1;
        error := UpdatePropsDefaultWeight(props);
        if error.Some? {
          return;
        }
      }
      if PropChanged(lastHostWeightStr, HOST_WEIGHT_KEY, props) {
        lastHost := None;
        weightCounter := 0;
        error := UpdatePropsHostWeight(props);
        return;
      }
      return None;
    }

    // The choice of one call: keep the last host while its turn lasts, otherwise move on to the next one.
    method ChooseNext(selection: seq<HostInfo>) returns (host: HostInfo)
      requires selection != []
      modifies this
      ensures host == selection[TargetOf(old(Value()), selection)]
      ensures Value() == Advanced(old(Value()), selection)
    {
      ghost var names := Names(selection);
      var lastHostIdx := -1;
      if lastHost.Some? {
        for i := 0 to |selection|
          invariant Value() == old(Value())
          invariant -1 <= lastHostIdx < i && (lastHostIdx >= 0 ==> names[lastHostIdx] == lastHost.value.host)
          invariant forall k :: lastHostIdx < k < i ==> names[k] != lastHost.value.host
        {
          if selection[i].host == lastHost.value.host {
            lastHostIdx := i;
          }
        }
        assert lastHostIdx == LastIndexOf(names, lastHost.value.host);
      }
      var targetHostIdx: nat;
      if weightCounter > 0 && lastHostIdx != -1 {
        targetHostIdx := lastHostIdx;
      } else {
        if lastHostIdx != -1 && lastHostIdx != |selection| - 1 {
          targetHostIdx := lastHostIdx + 1;
        } else {
          targetHostIdx := 0;
        }
        var weight := defaultWeight;
        if selection[targetHostIdx].host in clusterWeightMap {
          weight := clusterWeightMap[selection[targetHostIdx].host];
        }
        weightCounter := weight;
      }
      weightCounter := weightCounter - 1;
      lastHost := Some(selection[targetHostIdx]);
      host := selection[targetHostIdx];
    }
  }

  lemma AdvancedStaysValid(r: Record, selection: seq<HostInfo>)
    requires r.Valid() && selection != []
    ensures Advanced(r, selection).Valid()
  {
  }

  lemma SortOfEmpty(hosts: seq<HostInfo>)
    ensures hosts == [] ==> IsSortOf([], hosts)
  {
  }

  lemma SortKeepsLength(sorted: seq<HostInfo>, hosts: seq<HostInfo>)
    requires IsSortOf(sorted, hosts)
    ensures |sorted| == |hosts|
  {
    assert |multiset(sorted)| == |multiset(hosts)|;
  }

  method NewClusterInfo(props: Props) returns (info: RoundRobinClusterInfo, error: Option<SelectError>)
    ensures fresh(info) && (info.Value(), error) == Created(props) && info.Value().Valid()
  {
    info := new RoundRobinClusterInfo();
    error := info.UpdatePropsDefaultWeight(props);
    if error.None? {
      error := info.UpdatePropsHostWeight(props);
    }
    RecordsStayValid(NEW_RECORD, props);
  }

  // ---------- the selector ----------

  type Entries = Cache<string, RoundRobinClusterInfo>

  datatype Choice = Chosen(host: HostInfo) | Failed(error: SelectError) | NullRecord

  function Filter(hosts: seq<HostInfo>, keep: HostInfo -> bool): seq<HostInfo> {
    if hosts == [] then []
    else
      var kept := Filter(hosts[..|hosts| - 1], keep);
      if keep(hosts[|hosts| - 1]) then kept + [hosts[|hosts| - 1]] else kept
  }

  // The hosts a call chooses among: the running hosts of the wanted role, or any running host for a reader
  // when no reader runs.
  function Eligible(hosts: seq<HostInfo>, isWriter: bool): seq<HostInfo> {
    var ofRole := Filter(hosts, (h: HostInfo) => h.up && h.IsHostWriter() == isWriter);
    if ofRole == [] && !isWriter then Filter(hosts, (h: HostInfo) => h.up) else ofRole
  }

  // A host of the role that is asked for, running.
  predicate Wanted(h: HostInfo, isWriter: bool) { h.up && (h.role == WRITER <==> isWriter) }

  // The selection keeps exactly the hosts that satisfy a condition, each as often as the list has it.
  ghost predicate Keeps(selection: seq<HostInfo>, hosts: seq<HostInfo>, condition: HostInfo -> bool) {
    forall h :: multiset(selection)[h] == if condition(h) then multiset(hosts)[h] else 0
  }

  // Which hosts a call may choose among: the wanted ones; when none is, no host for a writer and any running one for a reader.
  ghost predicate SelectsFrom(selection: seq<HostInfo>, hosts: seq<HostInfo>, isWriter: bool) {
    if exists h :: h in hosts && Wanted(h, isWriter) then Keeps(selection, hosts, (h: HostInfo) => Wanted(h, isWriter))
    else if isWriter then selection == []
    else Keeps(selection, hosts, (h: HostInfo) => h.up)
  }

  lemma {:induction false} FilterKeeps(hosts: seq<HostInfo>, keep: HostInfo -> bool)
    ensures Keeps(Filter(hosts, keep), hosts, keep)
  {
    if hosts != [] {
      var front, last := hosts[..|hosts| - 1], hosts[|hosts| - 1];
      assert hosts == front + [last];
      FilterKeeps(front, keep);
    }
  }

  lemma SameKept(hosts: seq<HostInfo>, keep: HostInfo -> bool, condition: HostInfo -> bool, selection: seq<HostInfo>)
    requires Keeps(selection, hosts, keep) && forall h :: keep(h) == condition(h)
    ensures Keeps(selection, hosts, condition)
    ensures selection == [] <==> forall h :: h in hosts ==> !condition(h)
  {
    forall h ensures h in selection <==> h in hosts && condition(h) {
      assert multiset(selection)[h] == if keep(h) then multiset(hosts)[h] else 0;
      assert h in selection <==> h in multiset(selection);
      assert h in hosts <==> h in multiset(hosts);
    }
    if selection != [] {
      assert selection[0] in selection;
    }
  }

  lemma EligibleSelects(hosts: seq<HostInfo>, isWriter: bool)
    ensures SelectsFrom(Eligible(hosts, isWriter), hosts, isWriter)
  {
    var ofRole := (h: HostInfo) => h.up && h.IsHostWriter() == isWriter;
    var running := (h: HostInfo) => h.up;
    FilterKeeps(hosts, ofRole);
    SameKept(hosts, ofRole, (h: HostInfo) => Wanted(h, isWriter), Filter(hosts, ofRole));
    FilterKeeps(hosts, running);
    SameKept(hosts, running, (h: HostInfo) => h.up, Filter(hosts, running));
    hide Filter, Keeps;
    if Filter(hosts, ofRole) != [] {
      assert exists h :: h in hosts && Wanted(h, isWriter);
    }
  }

  // Sorting selects the same hosts.
  lemma SortedSelects(sorted: seq<HostInfo>, selection: seq<HostInfo>, hosts: seq<HostInfo>, isWriter: bool)
    requires SelectsFrom(selection, hosts, isWriter) && IsSortOf(sorted, selection)
    ensures SelectsFrom(sorted, hosts, isWriter)
  {
    assert multiset(sorted) == multiset(selection);
    if selection == [] {
      assert |multiset(sorted)| == 0;
    }
  }

  method CopyIf(hosts: seq<HostInfo>, keep: HostInfo -> bool) returns (kept: seq<HostInfo>)
    ensures kept == Filter(hosts, keep)
  {
    kept := [];
    for i := 0 to |hosts|
      invariant kept == Filter(hosts[..i], keep)
    {
      assert hosts[..i + 1][..i] == hosts[..i];
      if keep(hosts[i]) {
        kept := kept + [hosts[i]];
      }
    }
    assert hosts[..|hosts|] == hosts;
  }

  method SelectEligible(hosts: seq<HostInfo>, isWriter: bool) returns (selection: seq<HostInfo>)
    ensures selection == Eligible(hosts, isWriter) && SelectsFrom(selection, hosts, isWriter)
  {
    EligibleSelects(hosts, isWriter);
    selection := CopyIf(hosts, (h: HostInfo) => h.up && h.IsHostWriter() == isWriter);
    if selection == [] && !isWriter {
      selection := CopyIf(hosts, (h: HostInfo) => h.up);
    }
  }

  // What a call answers and leaves of the record it used: the refreshed record it was, or a new one.
  ghost predicate Answered(was: Option<Record>, props: Props, selection: seq<HostInfo>, left: Record, choice: Choice)
    requires selection != []
  {
    var (r, error) := if was.Some? then Refreshed(was.value, props) else Created(props);
    if error.Some? then left == r && choice == Failed(error.value)
    else left == Advanced(r, selection) && choice == Chosen(selection[TargetOf(r, selection)])
  }

  // Every name leads to the record, by an entry that does not expire before the given time.
  ghost predicate Serves(entries: Entries, info: RoundRobinClusterInfo, selection: seq<HostInfo>, until: Time) {
    forall h :: h in selection ==> h.host in entries && entries[h.host].value == info && entries[h.host].expiry >= until
  }

  // Entries live as long as the default says, counted from a reading of the clock that has been made.
  ghost predicate Stamped(entries: Entries, now: Time) {
    forall k :: k in entries ==> entries[k].ttl == DEFAULT_EXPIRATION_MS && entries[k].expiry <= now + DEFAULT_EXPIRATION_MS
  }

  // What reads between two times leave of the entries: none is added or led elsewhere, none that had expired
  // is revived, and what is still fresh has stayed.
  ghost predicate Touched(before: Entries, after: Entries, from: Time, to: Time) {
    && (forall k :: k in after ==> k in before && after[k].value == before[k].value)
    && (forall k :: k in after && after[k] != before[k] ==> before[k].expiry > from)
    && (forall k :: k in before && before[k].expiry > to ==> k in after && after[k].expiry >= before[k].expiry)
  }

  lemma ReadTouches(c: Entries, e: Event<string, RoundRobinClusterInfo>, from: Time)
    requires Stamped(c, from) && from <= e.now == e.later && (Observes(e) || e.op.Size?)
    ensures Touched(c, Step(c, e), from, e.now) && Stamped(Step(c, e), e.now)
    ensures Observes(e) && Fresh(c, e.op.key, e.now) ==>
      e.op.key in Step(c, e) && Step(c, e)[e.op.key].expiry == e.now + DEFAULT_EXPIRATION_MS
  {
  }

  lemma GetStillServes(
    c: Entries, info: RoundRobinClusterInfo, selection: seq<HostInfo>, key: string, until: Time, before: Time, now: Time)
    requires Serves(c, info, selection, until) && Stamped(c, before) && before <= now && Fresh(c, key, now)
    ensures Serves(Step(c, Event(Get(key), now, now)), info, selection, until)
    ensures Stamped(Step(c, Event(Get(key), now, now)), now)
  {
  }

  lemma TouchedTwice(a: Entries, b: Entries, c: Entries, from: Time, mid: Time, to: Time)
    requires from <= mid <= to && Touched(a, b, from, mid) && Touched(b, c, mid, to)
    ensures Touched(a, c, from, to)
  {
  }

  // Where the record of a call comes from: the first host found in the cache, or a new record when none is.
  ghost predicate Origin(before: Entries, hosts: seq<HostInfo>, from: Time, to: Time, first: nat, info: RoundRobinClusterInfo?) {
    && (forall j :: 0 <= j < |hosts| && j < first ==> !Fresh(before, hosts[j].host, to))
    && (first < |hosts| ==> Fresh(before, hosts[first].host, from) && before[hosts[first].host].value == info)
  }

  lemma OriginLater(
    before: Entries, hosts: seq<HostInfo>, from: Time, to: Time, later: Time, first: nat, info: RoundRobinClusterInfo?)
    requires Origin(before, hosts, from, to, first, info) && to <= later
    ensures Origin(before, hosts, from, later, first, info)
  {
  }

  // When no host was found, any record may be the one that is made.
  lemma OriginOnce(
    before: Entries, hosts: seq<HostInfo>, from: Time, to: Time, first: nat, cached: RoundRobinClusterInfo?,
    info: RoundRobinClusterInfo?)
    requires Origin(before, hosts, from, to, first, cached) && (first < |hosts| ==> info == cached)
    ensures Origin(before, hosts, from, to, first, info)
  {
  }

  lemma RecordsStayValid(r: Record, props: Props)
    ensures Created(props).0.Valid()
    ensures r.Valid() ==> Refreshed(r, props).0.Valid()
  {
    assert NEW_RECORD.Valid();
    UpdatesKeepValid(NEW_RECORD, props);
    UpdatesKeepValid(WithDefaultWeight(NEW_RECORD, props).0, props);
    if r.Valid() {
      var r0 := r.(defaultWeight := 1);
      UpdatesKeepValid(r0, props);
      var r1 := if PropChanged(r.lastDefaultString, DEFAULT_WEIGHT_KEY, props) then WithDefaultWeight(r0, props).0 else r;
      UpdatesKeepValid(r1.(lastHost := None, weightCounter := 0), props);
    }
  }

  ghost predicate LeadTo(entries: Entries, records: set<RoundRobinClusterInfo>) {
    forall k :: k in entries ==> entries[k].value in records
  }

  lemma ServesSooner(entries: Entries, info: RoundRobinClusterInfo, hosts: seq<HostInfo>, until: Time, sooner: Time)
    requires Serves(entries, info, hosts, until) && sooner <= until
    ensures Serves(entries, info, hosts, sooner)
  {
  }

  lemma LeadToMore(entries: Entries, records: set<RoundRobinClusterInfo>, info: RoundRobinClusterInfo)
    requires LeadTo(entries, records)
    ensures LeadTo(entries, records + {info})
  {
  }

  // After looking up the first i hosts: which of them were found, and that the first found was refreshed.
  ghost predicate Scanned(
    before: Entries, entries: Entries, hosts: seq<HostInfo>, i: nat, found: seq<HostInfo>, first: nat, from: Time, to: Time)
    requires i <= |hosts|
  {
    && Touched(before, entries, from, to)
    && Stamped(entries, to)
    && (forall j :: 0 <= j < i && j < first ==> !Fresh(before, hosts[j].host, to))
    && (found == [] ==> first == i)
    && (found != [] ==> first < i && found[0] == hosts[first] && Fresh(before, found[0].host, from))
    && (found != [] && to < from + DEFAULT_EXPIRATION_MS ==>
      found[0].host in entries && entries[found[0].host].expiry >= from + DEFAULT_EXPIRATION_MS)
  }

  lemma ScanOne(
    before: Entries, was: Entries, hosts: seq<HostInfo>, i: nat, found: seq<HostInfo>, first: nat, from: Time, mid: Time,
    now: Time)
    requires i < |hosts| && from <= mid <= now && Scanned(before, was, hosts, i, found, first, from, mid)
    ensures var here := Fresh(was, hosts[i].host, now);
      Scanned(before, Step(was, Event(Find(hosts[i].host), now, now)), hosts, i + 1,
              if here then found + [hosts[i]] else found, if !here && found == [] then i + 1 else first, from, now)
  {
    var e := Event(Find(hosts[i].host), now, now);
    ReadTouches(was, e, mid);
    TouchedTwice(before, was, Step(was, e), from, mid, now);
    if found == [] && Fresh(was, hosts[i].host, now) {
      assert (found + [hosts[i]])[0] == hosts[i];
    }
  }

  lemma ScanNone(before: Entries, hosts: seq<HostInfo>, from: Time, now: Time)
    requires Stamped(before, from) && from <= now
    ensures Scanned(before, Step(before, Event(Size, now, now)), hosts, 0, [], 0, from, now)
    ensures Touched(before, Step(before, Event(Size, now, now)), from, now)
  {
    ReadTouches(before, Event(Size, now, now), from);
  }

  lemma ScanTouches(
    before: Entries, entries: Entries, hosts: seq<HostInfo>, i: nat, found: seq<HostInfo>, first: nat, from: Time, to: Time)
    requires i <= |hosts| && Scanned(before, entries, hosts, i, found, first, from, to)
    ensures Touched(before, entries, from, to) && Stamped(entries, to)
  {
  }

  lemma StillLeadTo(before: Entries, after: Entries, records: set<RoundRobinClusterInfo>, from: Time, to: Time)
    requires LeadTo(before, records) && Touched(before, after, from, to)
    ensures LeadTo(after, records)
  {
  }

  // ---------- when the record is missing ----------

  type History = seq<Event<string, RoundRobinClusterInfo>>

  // Some Get since `from` came after its entry had expired.
  ghost predicate Lapses(h: History, from: nat) { LapsesSince(h, from, DEFAULT_EXPIRATION_MS) }

  ghost predicate Uniform(h: History) { StoresOnly(RefAfter(h, |h|), DEFAULT_EXPIRATION_MS) }

  // What is done to the cache between two Gets: entries are looked for and stored.
  ghost predicate Prepares(base: History, h: History) { base <= h && NoGetSince(h, |base|) && Uniform(h) }

  lemma PreparesMore(base: History, h: History, e: Event<string, RoundRobinClusterInfo>)
    requires Prepares(base, h)
    requires e.op.Size? || e.op.Find? || (e.op.Put? && e.op.ttl == DEFAULT_EXPIRATION_MS)
    ensures Prepares(base, h + [e]) && RefAfter(h, |h|).Keys <= RefAfter(h + [e], |h| + 1).Keys
  {
    StampsStay(h, e, DEFAULT_EXPIRATION_MS);
  }

  lemma FirstPrepares(h: History)
    requires Uniform(h)
    ensures Prepares(h, h) && !Lapses(h, |h|)
  {
  }

  lemma PreparingLapses(base: History, h: History, from: nat)
    requires Prepares(base, h) && from <= |base|
    ensures Lapses(h, from) <==> Lapses(base, from)
  {
    LapsesInParts(base, h, from, DEFAULT_EXPIRATION_MS);
  }

  lemma LapsesCompose(base: History, mid: History, h: History)
    requires base <= mid <= h
    ensures base <= h && (Lapses(h, |base|) <==> Lapses(mid, |base|) || Lapses(h, |mid|))
  {
    LapsesInParts(mid, h, |base|, DEFAULT_EXPIRATION_MS);
  }

  // After preparations, a Get of a key that was stored or found in them answers nothing exactly when it lapses.
  lemma GetAfterPreparing(base: History, h: History, e: Event<string, RoundRobinClusterInfo>, from: nat)
    requires Prepares(base, h) && InOrder(h + [e]) && e.op.Get? && e.op.key in RefAfter(h, |h|) && from <= |base|
    ensures Uniform(h + [e])
    ensures Lapses(h + [e], from) <==> Lapses(base, from) || Answers(After(h, |h|), e) == Value(None)
  {
    StampsStay(h, e, DEFAULT_EXPIRATION_MS);
    GetLapses(h, e, from, DEFAULT_EXPIRATION_MS);
    PreparingLapses(base, h, from);
  }

  /** A record can go missing: the only host is found by a call, and a Get that follows when its entry has just
      run out answers nothing. */
  lemma FoundThenMissing(info: RoundRobinClusterInfo)
    ensures var h: History := [Event(Put("h", info, DEFAULT_EXPIRATION_MS), 0, 0), Event(Size, 1, 1), Event(Find("h"), 1, 1),
        Event(Get("h"), 1 + DEFAULT_EXPIRATION_MS, 1 + DEFAULT_EXPIRATION_MS)];
      && InOrder(h)
      && Answers(After(h, 2), h[2]) == Found(true) && Answers(After(h, 3), h[3]) == Value(None) && Lapses(h, 1)
  {
    var h: History := [Event(Put("h", info, DEFAULT_EXPIRATION_MS), 0, 0), Event(Size, 1, 1), Event(Find("h"), 1, 1),
      Event(Get("h"), 1 + DEFAULT_EXPIRATION_MS, 1 + DEFAULT_EXPIRATION_MS)];
    assert After(h, 0) == map[] && RefAfter(h, 0) == map[];
    var stored := After(h, 1);
    assert stored == map["h" := Entry(info, DEFAULT_EXPIRATION_MS, DEFAULT_EXPIRATION_MS)];
    assert After(h, 2) == Retained(stored, 1) == stored;
    assert Fresh(After(h, 2), "h", 1);
    var found := After(h, 3);
    assert found == Touch(stored, "h", 1);
    assert RefAfter(h, 1) == map["h" := Stamp(info, 0, DEFAULT_EXPIRATION_MS)];
    assert RefAfter(h, 2) == RefAfter(h, 1);
    assert Lapsed(h, 3, DEFAULT_EXPIRATION_MS);
  }

  lemma PreparesUniform(base: History, h: History)
    requires Prepares(base, h)
    ensures Uniform(h) && base <= h
  {
  }

  lemma FoundIsStamped(h: History, before: Time, c: Entries, key: string, now: Time)
    requires InOrder(h) && (h != [] ==> h[|h| - 1].later <= before) && c == After(h, |h|) && Fresh(c, key, now)
    ensures key in RefAfter(h, |h|)
  {
    CachedIsStamped(h, before, key);
  }

  lemma CachedIsStamped(h: History, now: Time, key: string)
    requires InOrder(h) && (h != [] ==> h[|h| - 1].later <= now) && key in After(h, |h|)
    ensures key in RefAfter(h, |h|)
  {
    RunsAgree(h, |h|, now, key);
  }

  class RoundRobinHostSelector {

    const roundRobinCache: SlidingCacheMap<string, RoundRobinClusterInfo>
    ghost var records: set<RoundRobinClusterInfo>

    ghost predicate CacheValid()
      reads this, roundRobinCache, roundRobinCache.clock
    {
      && roundRobinCache.Valid()
      && Stamped(roundRobinCache.cache, roundRobinCache.clock.time)
      && LeadTo(roundRobinCache.cache, records)
      && Uniform(roundRobinCache.history)
    }

    ghost predicate Valid()
      reads this, roundRobinCache, roundRobinCache.clock, records
    {
      && CacheValid()
      && (forall r :: r in records ==> r.Value().Valid())
    }

    constructor (clock: Clock)
      ensures Valid() && roundRobinCache.clock == clock && roundRobinCache.cache == map[] && records == {}
      ensures fresh(roundRobinCache)
    {
      var cache := new SlidingCacheMap(clock);
      roundRobinCache, records := cache, {};
    }

    // The hosts of the list that are in the cache; looking them up refreshes their entries.
    method FindCached(hosts: seq<HostInfo>) returns (found: seq<HostInfo>, ghost first: nat)
      requires CacheValid()
      modifies roundRobinCache, roundRobinCache.clock
      ensures CacheValid() && old(roundRobinCache.clock.time) <= roundRobinCache.clock.time
      ensures Scanned(old(roundRobinCache.cache), roundRobinCache.cache, hosts, |hosts|, found, first,
                      old(roundRobinCache.clock.time), roundRobinCache.clock.time)
      ensures Prepares(old(roundRobinCache.history), roundRobinCache.history)
      ensures found != [] ==> found[0].host in roundRobinCache.Touches()
    {
      hide Step, Answers, InOrder, After, RefAfter, Swept, Touched, Stamped, Fresh, Scanned, LeadTo, Prepares, Uniform;
      var c := roundRobinCache;
      ghost var from, before, base := c.clock.time, c.cache, c.history;
      FirstPrepares(base);
      var _ := c.CountEntries();
      PreparesMore(base, base, Event(Size, c.clock.time, c.clock.time));
      ScanNone(before, hosts, from, c.clock.time);
      StillLeadTo(before, c.cache, records, from, c.clock.time);
      found, first := [], 0;
      for i := 0 to |hosts|
        invariant c.Valid() && from <= c.clock.time && LeadTo(c.cache, records)
        invariant Scanned(before, c.cache, hosts, i, found, first, from, c.clock.time)
        invariant Prepares(base, c.history) && (found != [] ==> found[0].host in c.Touches())
      {
        ghost var mid, was, h := c.clock.time, c.cache, c.history;
        var here := c.FindKey(hosts[i].host);
        PreparesMore(base, h, Event(Find(hosts[i].host), c.clock.time, c.clock.time));
        if here {
          FoundIsStamped(h, mid, was, hosts[i].host, c.clock.time);
        }
        ScanOne(before, was, hosts, i, found, first, from, mid, c.clock.time);
        if here {
          found := found + [hosts[i]];
        } else if found == [] {
          first := i + 1;
        }
        ScanTouches(before, c.cache, hosts, i + 1, found, first, from, c.clock.time);
        StillLeadTo(before, c.cache, records, from, c.clock.time);
      }
      ScanTouches(before, c.cache, hosts, |hosts|, found, first, from, c.clock.time);
      PreparesUniform(base, c.history);
    }

    method UpdateCache(hosts: seq<HostInfo>, info: RoundRobinClusterInfo)
      requires CacheValid() && info in records
      modifies roundRobinCache, roundRobinCache.clock
      ensures CacheValid() && old(roundRobinCache.clock.time) <= roundRobinCache.clock.time
      ensures Serves(roundRobinCache.cache, info, hosts, old(roundRobinCache.clock.time) + DEFAULT_EXPIRATION_MS)
      ensures Prepares(old(roundRobinCache.history), roundRobinCache.history)
    {
      hide Answers, InOrder, After, RefAfter, Prepares, Uniform;
      var c := roundRobinCache;
      ghost var from, base := c.clock.time, c.history;
      FirstPrepares(base);
      for i := 0 to |hosts|
        invariant CacheValid() && from <= c.clock.time && Prepares(base, c.history)
        invariant Serves(c.cache, info, hosts[..i], from + DEFAULT_EXPIRATION_MS)
      {
        ghost var h := c.history;
        c.PutDefault(hosts[i].host, info);
        PreparesMore(base, h, Event(Put(hosts[i].host, info, DEFAULT_EXPIRATION_MS), c.clock.time, c.clock.time));
        PreparesUniform(base, c.history);
        assert hosts[..i + 1] == hosts[..i] + [hosts[i]];
      }
      assert hosts[..|hosts|] == hosts;
    }

    // The record of the first host in the cache: absent when no host is, null when it expired since.
    method LookUp(hosts: seq<HostInfo>) returns (absent: bool, info: RoundRobinClusterInfo?, ghost first: nat)
      requires CacheValid()
      modifies roundRobinCache, roundRobinCache.clock
      ensures CacheValid() && old(roundRobinCache.clock.time) <= roundRobinCache.clock.time
      ensures old(roundRobinCache.history) <= roundRobinCache.history
      ensures Lapses(roundRobinCache.history, |old(roundRobinCache.history)|) <==> !absent && info == null
      ensures absent ==> first == |hosts|
      ensures !absent && info == null ==>
        roundRobinCache.clock.time - old(roundRobinCache.clock.time) >= DEFAULT_EXPIRATION_MS
      ensures !absent && info != null ==> first < |hosts| && info in records
      ensures absent || info != null ==> Origin(
        old(roundRobinCache.cache), hosts, old(roundRobinCache.clock.time), roundRobinCache.clock.time, first, info)
    {
      hide InOrder, After, RefAfter, Prepares, Uniform, Lapses, LeadTo;
      var c := roundRobinCache;
      ghost var from, before, base := c.clock.time, c.cache, c.history;
      FirstPrepares(base);
      var found, scanned := FindCached(hosts);
      PreparesUniform(base, c.history);
      PreparingLapses(base, c.history, |base|);
      first, absent, info := scanned, found == [], null;
      if found != [] {
        ghost var mid, was, h := c.clock.time, c.cache, c.history;
        var cached := c.GetValue(found[0].host);
        ghost var now := c.clock.time;
        GetAfterPreparing(base, h, Event(Get(found[0].host), now, now), |base|);
        StillLeadTo(was, c.cache, records, mid, now);
        ReadTouches(was, Event(Get(found[0].host), now, now), mid);
        TouchedTwice(before, was, c.cache, from, mid, now);
        if cached.Some? {
          info := cached.value;
        }
      }
    }

    method CreateCacheEntries(hosts: seq<HostInfo>, props: Props)
      returns (failure: Option<Choice>, ghost info: RoundRobinClusterInfo?, ghost first: nat)
      requires Valid()
      modifies this`records, roundRobinCache, roundRobinCache.clock, records
      ensures Valid() && fresh(records - old(records)) && old(roundRobinCache.clock.time) <= roundRobinCache.clock.time
      ensures info == null <==> failure == Some(NullRecord)
      ensures old(roundRobinCache.history) <= roundRobinCache.history
      ensures Lapses(roundRobinCache.history, |old(roundRobinCache.history)|) <==> info == null
      ensures info == null ==>
        roundRobinCache.clock.time - old(roundRobinCache.clock.time) >= DEFAULT_EXPIRATION_MS
      ensures info != null ==>
        && Origin(old(roundRobinCache.cache), hosts, old(roundRobinCache.clock.time), roundRobinCache.clock.time, first, info)
        && info in records && (if first < |hosts| then info in old(records) else fresh(info))
        && var (r, error) := if first < |hosts| then Refreshed(old(info.Value()), props) else Created(props);
           info.Value() == r && failure == (if error.Some? then Some(Failed(error.value)) else None)
      ensures failure.None? ==>
        Serves(roundRobinCache.cache, info, hosts, old(roundRobinCache.clock.time) + DEFAULT_EXPIRATION_MS)
      ensures forall r :: r in old(records) && r != info ==> unchanged(r)
    {
      hide Answers, InOrder, After, RefAfter, Refreshed, Created, InRange, Fresh, Origin, Stamped, Lapses, Prepares, Uniform,
        Serves, LeadTo;
      ghost var before, from, base := roundRobinCache.cache, roundRobinCache.clock.time, roundRobinCache.history;
      var absent, cached, scanned := LookUp(hosts);
      ghost var h := roundRobinCache.history;
      ghost var looked := roundRobinCache.clock.time;
      first := scanned;
      var error: Option<SelectError>;
      var clusterInfo: RoundRobinClusterInfo;
      if absent {
        clusterInfo, error := NewClusterInfo(props);
      } else if cached == null {
        return Some(NullRecord), null, 0;
      } else {
        clusterInfo := cached;
        RecordsStayValid(clusterInfo.Value(), props);
        error := clusterInfo.RefreshProps(props);
      }
      info := clusterInfo;
      LeadToMore(roundRobinCache.cache, records, clusterInfo);
      records := records + {clusterInfo};
      OriginOnce(before, hosts, from, looked, first, cached, info);
      if error.Some? {
        return Some(Failed(error.value)), info, first;
      }
      ghost var made := roundRobinCache.clock.time;
      UpdateCache(hosts, clusterInfo);
      PreparesUniform(h, roundRobinCache.history);
      PreparingLapses(h, roundRobinCache.history, |base|);
      ServesSooner(roundRobinCache.cache, clusterInfo, hosts, made + DEFAULT_EXPIRATION_MS, from + DEFAULT_EXPIRATION_MS);
      OriginLater(before, hosts, from, looked, roundRobinCache.clock.time, first, info);
      failure := None;
    }

    // The record under the first name, or null if its entry has expired since it was put there.
    method GetServing(selection: seq<HostInfo>, ghost used: RoundRobinClusterInfo, ghost from: Time)
      returns (info: RoundRobinClusterInfo?)
      requires CacheValid() && selection != []
      requires Serves(roundRobinCache.cache, used, selection, from + DEFAULT_EXPIRATION_MS)
      modifies roundRobinCache, roundRobinCache.clock
      ensures CacheValid() && old(roundRobinCache.clock.time) <= roundRobinCache.clock.time
      ensures old(roundRobinCache.history) <= roundRobinCache.history
      ensures Lapses(roundRobinCache.history, |old(roundRobinCache.history)|) <==> info == null
      ensures info == null ==> roundRobinCache.clock.time - from >= DEFAULT_EXPIRATION_MS
      ensures info != null ==>
        info == used && Serves(roundRobinCache.cache, used, selection, from + DEFAULT_EXPIRATION_MS)
    {
      hide InOrder, After, RefAfter, Lapses, Uniform, Prepares;
      ghost var made, was, h := roundRobinCache.clock.time, roundRobinCache.cache, roundRobinCache.history;
      FirstPrepares(h);
      CachedIsStamped(h, made, selection[0].host);
      assert selection[0] in selection;
      var cached := roundRobinCache.GetValue(selection[0].host);
      ghost var now := roundRobinCache.clock.time;
      ReadTouches(was, Event(Get(selection[0].host), now, now), made);
      GetAfterPreparing(h, h, Event(Get(selection[0].host), now, now), |h|);
      StillLeadTo(was, roundRobinCache.cache, records, made, now);
      if cached.None? {
        return null;
      }
      GetStillServes(was, used, selection, selection[0].host, from + DEFAULT_EXPIRATION_MS, made, now);
      info := cached.value;
    }

    method GetHost(hosts: seq<HostInfo>, isWriter: bool, props: Props)
      returns (choice: Choice, ghost selection: seq<HostInfo>, ghost info: RoundRobinClusterInfo?, ghost first: nat)
      requires Valid()
      modifies this`records, roundRobinCache, roundRobinCache.clock, records
      ensures Valid() && fresh(records - old(records)) && old(roundRobinCache.clock.time) <= roundRobinCache.clock.time
      ensures IsSortOf(selection, Eligible(hosts, isWriter)) && SelectsFrom(selection, hosts, isWriter)
      ensures selection == [] ==> choice == Failed(NoAvailableHosts) && roundRobinCache.cache == old(roundRobinCache.cache)
      ensures info == null <==> selection == [] || choice == NullRecord
      ensures old(roundRobinCache.history) <= roundRobinCache.history
      ensures Lapses(roundRobinCache.history, |old(roundRobinCache.history)|) <==> choice == NullRecord
      ensures choice == NullRecord ==>
        roundRobinCache.clock.time - old(roundRobinCache.clock.time) >= DEFAULT_EXPIRATION_MS
      ensures info != null ==>
        && Origin(old(roundRobinCache.cache), selection, old(roundRobinCache.clock.time), roundRobinCache.clock.time, first, info)
        && info in records && (if first < |selection| then info in old(records) else fresh(info))
        && Answered(if first < |selection| then Some(old(info.Value())) else None, props, selection, info.Value(), choice)
      ensures choice.Chosen? ==>
        Serves(roundRobinCache.cache, info, selection, old(roundRobinCache.clock.time) + DEFAULT_EXPIRATION_MS)
      ensures forall r :: r in old(records) && r != info && choice != NullRecord ==> unchanged(r)
    {
      hide Answers, InOrder, After, Refreshed, Created, Advanced, TargetOf, Fresh, Origin, InRange, Eligible, Serves, Stamped,
        SelectsFrom, RefAfter, Lapses, Uniform, Prepares, LeadTo;
      ghost var before, from, base := roundRobinCache.cache, roundRobinCache.clock.time, roundRobinCache.history;
      FirstPrepares(base);
      var eligible := SelectEligible(hosts, isWriter);
      info, first := null, 0;
      SortOfEmpty(eligible);
      if eligible == [] {
        selection := [];
        return Failed(NoAvailableHosts), selection, info, first;
      }
      var sorted := SortByName(eligible);
      SortKeepsLength(sorted, eligible);
      SortedSelects(sorted, eligible, hosts, isWriter);
      selection := sorted;
      var failure, used, scanned := CreateCacheEntries(sorted, props);
      if failure.Some? {
        return failure.value, selection, used, scanned;
      }
      ghost var made, h := roundRobinCache.clock.time, roundRobinCache.history;
      var clusterInfo := GetServing(sorted, used, from);
      LapsesCompose(base, h, roundRobinCache.history);
      if clusterInfo == null {
        return NullRecord, selection, null, 0;
      }
      OriginLater(before, selection, from, made, roundRobinCache.clock.time, scanned, used);
      AdvancedStaysValid(clusterInfo.Value(), sorted);
      var host := clusterInfo.ChooseNext(sorted);
      choice, info, first := Chosen(host), used, scanned;
    }
  }
}
