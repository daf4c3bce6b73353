/**
 * The DNS flags of the Blue/Green monitor as a state machine: the collecting steps of one iteration of Run, the
 * setters other threads call at any time, and the three locked sections of ResetCollectedData.
 */
module BlueGreenFlags {

  import opened Options

  type Ip = string

  type IpMap = map<string, Option<Ip>>

  // Where the monitor's thread is within an iteration: the flags are updated after the addresses are collected.
  datatype Position = Collecting | AddressesCollected

  datatype State = State(
    position: Position,
    collectIp: bool,
    collectTopology: bool,
    hostNames: set<string>,
    initialTopology: seq<string>,
    currentTopology: seq<string>,
    initialIpHostMap: IpMap,
    currentIpHostMap: IpMap,
    ipChanged: bool,
    endpointsRemoved: bool,
    topologyChanged: bool)

  const INITIAL := State(Collecting, true, true, {}, [], [], map[], map[], false, false, false)

  datatype Event =
    | CollectStatus(names: set<string>)
    | CollectTopology(hosts: seq<string>)
    | CollectHostIp(dns: string -> Option<Ip>)
    | UpdateIpAddressFlags
    | SetCollectIp(collectIp: bool)
    | SetCollectTopology(collectTopology: bool)
    | ClearInitialIps
    | ClearInitialTopology
    | ClearHostNames

  // ---------- the flags ----------

  predicate Resolved(ips: IpMap, host: string) { host in ips && ips[host].Some? }

  // The host had an address at first and has another one now.
  predicate MovedTo(initial: IpMap, current: IpMap, host: string) {
    Resolved(initial, host) && Resolved(current, host) && initial[host].value != current[host].value
  }

  // The host had an address at first and has none now.
  predicate Gone(initial: IpMap, current: IpMap, host: string) {
    Resolved(initial, host) && host in current && current[host].None?
  }

  predicate AllMoved(hosts: seq<string>, initial: IpMap, current: IpMap) {
    hosts != [] && forall h :: h in hosts ==> MovedTo(initial, current, h)
  }

  predicate AllGone(hosts: seq<string>, initial: IpMap, current: IpMap) {
    hosts != [] && forall h :: h in hosts ==> Gone(initial, current, h)
  }

  predicate NoneKept(initial: seq<string>, current: seq<string>) {
    current != [] && initial != [] && forall h :: h in current ==> h !in initial
  }

  function Names(hosts: seq<string>): set<string> { set h | h in hosts }

  function Apply(s: State, e: Event): State {
    match e
    case CollectStatus(names) => s.(hostNames := s.hostNames + names)
    case CollectTopology(hosts) =>
      if hosts == [] then s
      else if s.collectTopology then
        s.(currentTopology := hosts, initialTopology := hosts, hostNames := s.hostNames + Names(hosts))
      else s.(currentTopology := hosts)
    case CollectHostIp(dns) =>
      var current := map h | h in s.hostNames :: dns(h);
      s.(currentIpHostMap := current, initialIpHostMap := if s.collectIp then current else s.initialIpHostMap,
         position := AddressesCollected)
    case UpdateIpAddressFlags =>
      var stale := s.ipChanged && !s.collectTopology;
      s.(ipChanged := if s.collectIp then stale else AllMoved(s.initialTopology, s.initialIpHostMap, s.currentIpHostMap),
         endpointsRemoved := AllGone(s.initialTopology, s.initialIpHostMap, s.currentIpHostMap),
         topologyChanged := if s.collectTopology then false else NoneKept(s.initialTopology, s.currentTopology),
         position := Collecting)
    case SetCollectIp(b) => s.(collectIp := b)
    case SetCollectTopology(b) => s.(collectTopology := b)
    case ClearInitialIps => s.(initialIpHostMap := map[])
    case ClearInitialTopology => s.(initialTopology := [])
    case ClearHostNames => s.(hostNames := {})
  }

  // An iteration collects status and topology before it collects the addresses, and then updates the flags.
  predicate Enabled(s: State, e: Event) {
    match e
    case CollectStatus(_) => s.position == Collecting
    case CollectTopology(_) => s.position == Collecting
    case CollectHostIp(_) => s.position == Collecting
    case UpdateIpAddressFlags => s.position == AddressesCollected
    case _ => true
  }

  // The setter does not change the flag between CollectHostIp and UpdateIpAddressFlags.
  predicate Settled(s: State, e: Event) {
    e.SetCollectIp? && s.position == AddressesCollected ==> e.collectIp == s.collectIp
  }

  predicate Exclusive(s: State) { !(s.ipChanged && s.endpointsRemoved) }

  // ---------- the exclusion ----------

  // Between the two steps a first address that was just collected is the current one.
  ghost predicate Invariant(s: State) {
    && Exclusive(s)
    && (s.position == AddressesCollected && s.collectIp ==> forall h :: h in s.initialIpHostMap ==>
      h in s.currentIpHostMap && s.currentIpHostMap[h] == s.initialIpHostMap[h])
  }

  lemma FreshAddressesAreNotGone(s: State)
    requires Invariant(s) && s.position == AddressesCollected && s.collectIp
    ensures !AllGone(s.initialTopology, s.initialIpHostMap, s.currentIpHostMap)
  {
    if s.initialTopology != [] {
      assert s.initialTopology[0] in s.initialTopology;
      assert !Gone(s.initialIpHostMap, s.currentIpHostMap, s.initialTopology[0]);
    }
  }

  lemma NotBothMovedAndGone(hosts: seq<string>, initial: IpMap, current: IpMap)
    ensures !(AllMoved(hosts, initial, current) && AllGone(hosts, initial, current))
  {
    if hosts != [] {
      assert hosts[0] in hosts && !(MovedTo(initial, current, hosts[0]) && Gone(initial, current, hosts[0]));
    }
  }

  lemma StepKeepsInvariant(s: State, e: Event)
    requires Invariant(s) && Enabled(s, e) && Settled(s, e)
    ensures Invariant(Apply(s, e))
  {
    if e.UpdateIpAddressFlags? {
      NotBothMovedAndGone(s.initialTopology, s.initialIpHostMap, s.currentIpHostMap);
      if s.collectIp {
        FreshAddressesAreNotGone(s);
      }
    }
  }

  function Run(s: State, events: seq<Event>): State
    decreases |events|
  {
    if events == [] then s else Run(Apply(s, events[0]), events[1..])
  }

  ghost predicate Allowed(s: State, events: seq<Event>)
    decreases |events|
  {
    events == [] || (Enabled(s, events[0]) && Settled(s, events[0]) && Allowed(Apply(s, events[0]), events[1..]))
  }

  /** In every run in which the collecting of addresses is not switched between collecting them and updating the flags,
      the two flags are never both true, wherever collected data is reset and however long the first is left stale. */
  lemma {:induction false} FlagsExclusive(s: State, events: seq<Event>)
    requires Invariant(s) && Allowed(s, events)
    ensures Exclusive(Run(s, events)) && Invariant(Run(s, events))
    decreases |events|
  {
    if events != [] {
      StepKeepsInvariant(s, events[0]);
      FlagsExclusive(Apply(s, events[0]), events[1..]);
    }
  }

  /** Exactly when an update makes both flags true: addresses are being collected, so a stale first flag is kept, and
      every first address is gone - which cannot be if they were being collected when the addresses were read. */
  lemma BothTrueExactly(s: State)
    ensures !Exclusive(Apply(s, UpdateIpAddressFlags)) <==>
      s.collectIp && !s.collectTopology && s.ipChanged && AllGone(s.initialTopology, s.initialIpHostMap, s.currentIpHostMap)
  {
    NotBothMovedAndGone(s.initialTopology, s.initialIpHostMap, s.currentIpHostMap);
  }

  // ---------- what the flags say ----------

  // The address of a host, if it was looked up and has one.
  function Address(ips: IpMap, host: string): Option<Ip> { if host in ips then ips[host] else None }

  /** The three flags after an update. All first hosts moved: each has an address and had another one; while addresses are being
      collected the flag is kept instead, unless the topology is being collected too. All first hosts are gone: each had an address
      and was looked up in vain. The topology changed: it has been collected, and no host of it was a first one. */
  lemma FlagsSay(s: State)
    ensures var s', first, now := Apply(s, UpdateIpAddressFlags), s.initialTopology, s.currentTopology;
      && (s'.ipChanged <==>
            if s.collectIp then s.ipChanged && !s.collectTopology
            else first != [] && forall i :: 0 <= i < |first| ==> HasMoved(s, first[i]))
      && (s'.endpointsRemoved <==> first != [] && forall i :: 0 <= i < |first| ==> IsGone(s, first[i]))
      && (s'.topologyChanged <==>
            && !s.collectTopology && first != [] && now != []
            && forall i, j :: 0 <= i < |first| && 0 <= j < |now| ==> first[i] != now[j])
  {
    var first, now := s.initialTopology, s.currentTopology;
    assert forall i :: 0 <= i < |first| ==> first[i] in first;
    assert forall i :: 0 <= i < |now| ==> now[i] in now;
  }

  predicate HasMoved(s: State, host: string) {
    var was, now := Address(s.initialIpHostMap, host), Address(s.currentIpHostMap, host);
    was != None && now != None && was != now
  }

  predicate IsGone(s: State, host: string) {
    Address(s.initialIpHostMap, host) != None && host in s.currentIpHostMap && Address(s.currentIpHostMap, host) == None
  }

  // ---------- what the flags are computed from, in terms of the events alone ----------

  function Front(events: seq<Event>): seq<Event>
    requires events != []
  {
    events[..|events| - 1]
  }

  // Whether addresses, and topologies, are being collected: as set last, and at first they are.
  function CollectsIp(events: seq<Event>): bool
    decreases |events|
  {
    if events == [] then true
    else if events[|events| - 1].SetCollectIp? then events[|events| - 1].collectIp else CollectsIp(Front(events))
  }

  function CollectsTopology(events: seq<Event>): bool
    decreases |events|
  {
    if events == [] then true
    else if events[|events| - 1].SetCollectTopology? then events[|events| - 1].collectTopology
    else CollectsTopology(Front(events))
  }

  // The topology found last, an empty answer not counting.
  function LastTopology(events: seq<Event>): seq<string>
    decreases |events|
  {
    if events == [] then []
    else
      match events[|events| - 1]
      case CollectTopology(hosts) => if hosts != [] then hosts else LastTopology(Front(events))
      case _ => LastTopology(Front(events))
  }

  // The topology found last while topologies were being collected, since that was reset.
  function FirstTopology(events: seq<Event>): seq<string>
    decreases |events|
  {
    if events == [] then []
    else
      match events[|events| - 1]
      case CollectTopology(hosts) => if hosts != [] && CollectsTopology(Front(events)) then hosts else FirstTopology(Front(events))
      case ClearInitialTopology => []
      case _ => FirstTopology(Front(events))
  }

  // The hosts that status rows and first topologies have named since that was reset.
  ghost predicate Named(events: seq<Event>, host: string)
    decreases |events|
  {
    events != [] &&
    match events[|events| - 1]
    case CollectStatus(names) => host in names || Named(Front(events), host)
    case CollectTopology(hosts) => (host in hosts && CollectsTopology(Front(events))) || Named(Front(events), host)
    case ClearHostNames => false
    case _ => Named(Front(events), host)
  }

  // What the last lookup of the hosts named until then found, and the last one while addresses were being collected.
  ghost predicate LookedUp(events: seq<Event>, host: string, address: Option<Ip>)
    decreases |events|
  {
    events != [] &&
    match events[|events| - 1]
    case CollectHostIp(dns) => Named(Front(events), host) && address == dns(host)
    case _ => LookedUp(Front(events), host, address)
  }

  ghost predicate LookedUpFirst(events: seq<Event>, host: string, address: Option<Ip>)
    decreases |events|
  {
    events != [] &&
    match events[|events| - 1]
    case CollectHostIp(dns) =>
      if CollectsIp(Front(events)) then Named(Front(events), host) && address == dns(host)
      else LookedUpFirst(Front(events), host, address)
    case ClearInitialIps => false
    case _ => LookedUpFirst(Front(events), host, address)
  }

  lemma {:induction false} RunToLast(s: State, events: seq<Event>, e: Event)
    ensures Run(s, events + [e]) == Apply(Run(s, events), e)
    decreases |events|
  {
    if events == [] {
      assert events + [e] == [e];
    } else {
      assert (events + [e])[1..] == events[1..] + [e];
      RunToLast(Apply(s, events[0]), events[1..], e);
    }
  }

  ghost predicate Holds(ips: IpMap, host: string, address: Option<Ip>) { host in ips && ips[host] == address }

  ghost predicate FromHistory(s: State, events: seq<Event>, host: string, address: Option<Ip>) {
    TopologyFromHistory(s, events, host) && AddressesFromHistory(s, events, host, address)
  }

  ghost predicate TopologyFromHistory(s: State, events: seq<Event>, host: string) {
    && s.collectIp == CollectsIp(events) && s.collectTopology == CollectsTopology(events)
    && s.currentTopology == LastTopology(events) && s.initialTopology == FirstTopology(events)
    && (host in s.hostNames <==> Named(events, host))
  }

  ghost predicate AddressesFromHistory(s: State, events: seq<Event>, host: string, address: Option<Ip>) {
    && (Holds(s.currentIpHostMap, host, address) <==> LookedUp(events, host, address))
    && (Holds(s.initialIpHostMap, host, address) <==> LookedUpFirst(events, host, address))
  }

  lemma StepFromHistory(s: State, events: seq<Event>, e: Event, host: string, address: Option<Ip>)
    requires FromHistory(s, events, host, address)
    ensures FromHistory(Apply(s, e), events + [e], host, address)
  {
    hide Apply;
    TopologyStep(s, events, e, host);
    AddressesStep(s, events, e, host, address);
  }

  lemma TopologyStep(s: State, events: seq<Event>, e: Event, host: string)
    requires TopologyFromHistory(s, events, host)
    ensures TopologyFromHistory(Apply(s, e), events + [e], host)
  {
    assert Front(events + [e]) == events;
  }

  lemma AddressesStep(s: State, events: seq<Event>, e: Event, host: string, address: Option<Ip>)
    requires FromHistory(s, events, host, address)
    ensures AddressesFromHistory(Apply(s, e), events + [e], host, address)
  {
    hide FirstTopology, LastTopology;
    assert Front(events + [e]) == events;
  }

  /** What the flags are computed from, after any events: settings as set last, topologies and addresses as found last, the first ones
      only while they were being collected and since they were reset. */
  lemma {:induction false} FieldsFromHistory(events: seq<Event>, host: string, address: Option<Ip>)
    ensures FromHistory(Run(INITIAL, events), events, host, address)
    decreases |events|
  {
    hide Apply, FromHistory;
    if events == [] {
      NoHistory(host, address);
    } else {
      FieldsFromHistory(Front(events), host, address);
      assert events == Front(events) + [events[|events| - 1]];
      RunToLast(INITIAL, Front(events), events[|events| - 1]);
      StepFromHistory(Run(INITIAL, Front(events)), Front(events), events[|events| - 1], host, address);
    }
  }

  lemma NoHistory(host: string, address: Option<Ip>)
    ensures FromHistory(INITIAL, [], host, address)
  {
  }

  // ---------- without the condition ----------

  function Resolving(to: Option<Ip>): string -> Option<Ip> { (h: string) => to }

  const DB := "db"

  // The host is collected, then it moves, then it disappears and collecting is switched on again just before the
  // flags are updated.
  function Collected(): State {
    var s := Apply(Apply(INITIAL, CollectTopology([DB])), CollectHostIp(Resolving(Some("1"))));
    Apply(s, UpdateIpAddressFlags)
  }

  function Moved(): State {
    var s := Apply(Apply(Collected(), SetCollectIp(false)), SetCollectTopology(false));
    Apply(Apply(s, CollectHostIp(Resolving(Some("2")))), UpdateIpAddressFlags)
  }

  function SwitchedTooEarly(): State {
    Apply(Apply(Apply(Moved(), CollectHostIp(Resolving(None))), SetCollectIp(true)), UpdateIpAddressFlags)
  }

  lemma CollectedIs()
    ensures Collected() == INITIAL.(
      hostNames := {DB}, initialTopology := [DB], currentTopology := [DB],
      initialIpHostMap := map[DB := Some("1")], currentIpHostMap := map[DB := Some("1")])
  {
    var s := Apply(INITIAL, CollectTopology([DB]));
    assert s.hostNames == {DB};
    assert Apply(s, CollectHostIp(Resolving(Some("1")))).currentIpHostMap == map[DB := Some("1")];
    assert DB in [DB];
  }

  lemma MovedIs()
    ensures Moved() == Collected().(
      collectIp := false, collectTopology := false, currentIpHostMap := map[DB := Some("2")], ipChanged := true)
  {
    CollectedIs();
    hide Collected;
    var s := Apply(Apply(Collected(), SetCollectIp(false)), SetCollectTopology(false));
    assert Apply(s, CollectHostIp(Resolving(Some("2")))).currentIpHostMap == map[DB := Some("2")];
    assert "1" != "2" && DB in [DB];
  }

  /** The condition is needed: in this run the flag is switched between the two steps and both flags end up true. */
  lemma BothTrueIfSwitched()
    ensures !Exclusive(SwitchedTooEarly())
  {
    CollectedIs();
    MovedIs();
    hide Collected, Moved;
    var s := Apply(Moved(), CollectHostIp(Resolving(None)));
    assert s.currentIpHostMap == map[DB := None];
    assert AllGone(s.initialTopology, s.initialIpHostMap, s.currentIpHostMap);
  }
}
