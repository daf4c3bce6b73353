/**
 * What the sliding-expiry cache does, as functions: one step of the cache that evicts when it happens to look,
 * and one step of a reference map that keeps every stamp for ever. Eviction turns out to be unobservable.
 */
module SlidingCache {

  import opened Options

  type Time = int

  datatype Entry<V> = Entry(value: V, expiry: Time, ttl: Time)

  datatype Op<K, V> =
    | Put(key: K, value: V, ttl: Time)
    | PutIfAbsent(key: K, value: V, ttl: Time)
    | Get(key: K)
    | Find(key: K)
    | Size
    | Delete(key: K)
    | Clear

  // `now` is the first reading of the clock and `later` the last; only PutIfAbsent reads it twice.
  datatype Event<K, V> = Event(op: Op<K, V>, now: Time, later: Time)

  datatype Answer<V> = Silent | Value(value: Option<V>) | Found(found: bool) | Count(count: nat)

  type Cache<K, V> = map<K, Entry<V>>

  // ---------- the cache ----------

  predicate Fresh<K, V>(c: Cache<K, V>, k: K, now: Time) { k in c && c[k].expiry > now }

  function Touch<K, V>(c: Cache<K, V>, k: K, now: Time): Cache<K, V>
    requires k in c
  {
    c[k := c[k].(expiry := now + c[k].ttl)]
  }

  function Retained<K, V>(c: Cache<K, V>, now: Time): Cache<K, V> { map k | k in c && !(c[k].expiry < now) :: c[k] }

  function Step<K, V>(c: Cache<K, V>, e: Event<K, V>): Cache<K, V> {
    match e.op
    case Put(k, v, ttl) => c[k := Entry(v, e.now + ttl, ttl)]
    case PutIfAbsent(k, v, ttl) => if Fresh(c, k, e.now) then Touch(c, k, e.now) else c[k := Entry(v, e.later + ttl, ttl)]
    case Get(k) => if Fresh(c, k, e.now) then Touch(c, k, e.now) else c - {k}
    case Find(k) => if Fresh(c, k, e.now) then Touch(c, k, e.now) else c - {k}
    case Size => Retained(c, e.now)
    case Delete(k) => c - {k}
    case Clear => map[]
  }

  function Answers<K, V>(c: Cache<K, V>, e: Event<K, V>): Answer<V> {
    match e.op
    case Get(k) => Value(if Fresh(c, k, e.now) then Some(c[k].value) else None)
    case Find(k) => Found(Fresh(c, k, e.now))
    case Size => Count(|Retained(c, e.now)|)
    case _ => Silent
  }

  // ---------- the reference ----------

  datatype Stamp<V> = Stamp(value: V, last: Time, ttl: Time)

  type Stamps<K, V> = map<K, Stamp<V>>

  // The gap since the last touch is strictly less than the time to live.
  predicate Live<K, V>(r: Stamps<K, V>, k: K, now: Time) { k in r && now - r[k].last < r[k].ttl }

  function RefStep<K, V>(r: Stamps<K, V>, e: Event<K, V>): Stamps<K, V> {
    match e.op
    case Put(k, v, ttl) => r[k := Stamp(v, e.now, ttl)]
    case PutIfAbsent(k, v, ttl) =>
      if Live(r, k, e.now) then r[k := r[k].(last := e.now)] else r[k := Stamp(v, e.later, ttl)]
    case Get(k) => if Live(r, k, e.now) then r[k := r[k].(last := e.now)] else r
    case Find(k) => if Live(r, k, e.now) then r[k := r[k].(last := e.now)] else r
    case Size => r
    case Delete(k) => r - {k}
    case Clear => map[]
  }

  function RefAnswers<K, V>(r: Stamps<K, V>, e: Event<K, V>): Answer<V> {
    match e.op
    case Get(k) => Value(if Live(r, k, e.now) then Some(r[k].value) else None)
    case Find(k) => Found(Live(r, k, e.now))
    case _ => Silent
  }

  // ---------- runs ----------

  predicate InOrder<K, V>(h: seq<Event<K, V>>) {
    forall i: nat :: i < |h| ==> h[i].now <= h[i].later && (i > 0 ==> h[i - 1].later <= h[i].now)
  }

  // The cache after the first n events, starting empty.
  function After<K, V>(h: seq<Event<K, V>>, n: nat): Cache<K, V>
    requires n <= |h|
  {
    if n == 0 then map[] else Step(After(h, n - 1), h[n - 1])
  }

  function RefAfter<K, V>(h: seq<Event<K, V>>, n: nat): Stamps<K, V>
    requires n <= |h|
  {
    if n == 0 then map[] else RefStep(RefAfter(h, n - 1), h[n - 1])
  }

  predicate Observes<K, V>(e: Event<K, V>) { e.op.Get? || e.op.Find? }

  // The entry of a key is the stamp of the reference, or was evicted when it could never be live again.
  ghost predicate AgreeOn<K, V>(c: Cache<K, V>, r: Stamps<K, V>, k: K, now: Time) {
    && (k in c ==> k in r && c[k] == Entry(r[k].value, r[k].last + r[k].ttl, r[k].ttl))
    && (k in r && k !in c ==> now - r[k].last >= r[k].ttl)
  }

  lemma StepAgreesOn<K, V>(c: Cache<K, V>, r: Stamps<K, V>, start: Time, e: Event<K, V>, k: K)
    requires AgreeOn(c, r, k, start) && start <= e.now <= e.later
    ensures AgreeOn(Step(c, e), RefStep(r, e), k, e.later)
    ensures Observes(e) && k == e.op.key ==> Answers(c, e) == RefAnswers(r, e)
  {
  }

  lemma {:induction false} RunsAgree<K, V>(h: seq<Event<K, V>>, n: nat, now: Time, k: K)
    requires InOrder(h) && n <= |h| && (n > 0 ==> h[n - 1].later <= now)
    ensures AgreeOn(After(h, n), RefAfter(h, n), k, now)
  {
    if n > 0 {
      RunsAgree(h, n - 1, h[n - 1].now, k);
      StepAgreesOn(After(h, n - 1), RefAfter(h, n - 1), h[n - 1].now, h[n - 1], k);
    }
  }

  /** Lazy eviction is unobservable: on every sequence of operations at non-decreasing times, Get and Find
      answer as the map that never evicts. */
  lemma EvictionUnobservable<K, V>(h: seq<Event<K, V>>)
    requires InOrder(h)
    ensures forall i: nat :: i < |h| && Observes(h[i]) ==> Answers(After(h, i), h[i]) == RefAnswers(RefAfter(h, i), h[i])
  {
    forall i: nat | i < |h| && Observes(h[i]) ensures Answers(After(h, i), h[i]) == RefAnswers(RefAfter(h, i), h[i]) {
      RunsAgree(h, i, h[i].now, h[i].op.key);
      StepAgreesOn(After(h, i), RefAfter(h, i), h[i].now, h[i], h[i].op.key);
    }
  }

  // A Get that comes at least `ttl` after its key was last touched: stored, or looked up and found.
  ghost predicate Lapsed<K, V>(h: seq<Event<K, V>>, g: nat, ttl: Time)
    requires g < |h|
  {
    && h[g].op.Get? && h[g].op.key in RefAfter(h, g)
    && h[g].now - RefAfter(h, g)[h[g].op.key].last >= ttl
  }

  ghost predicate LapsesSince<K, V>(h: seq<Event<K, V>>, from: nat, ttl: Time) {
    exists g: nat :: from <= g < |h| && Lapsed(h, g, ttl)
  }

  ghost predicate StoresOnly<K, V>(r: Stamps<K, V>, ttl: Time) { forall k :: k in r ==> r[k].ttl == ttl }

  ghost predicate NoGetSince<K, V>(h: seq<Event<K, V>>, from: nat) {
    forall j: nat :: from <= j < |h| ==> !h[j].op.Get?
  }

  lemma {:induction false} RefAfterExtends<K, V>(h: seq<Event<K, V>>, longer: seq<Event<K, V>>, n: nat)
    requires n <= |h| && h <= longer
    ensures RefAfter(longer, n) == RefAfter(h, n)
  {
    if n > 0 {
      RefAfterExtends(h, longer, n - 1);
    }
  }

  // A longer history has the lapses it had, and those that came later.
  lemma LapsesInParts<K, V>(h: seq<Event<K, V>>, longer: seq<Event<K, V>>, from: nat, ttl: Time)
    requires h <= longer && from <= |h|
    ensures LapsesSince(longer, from, ttl) <==> LapsesSince(h, from, ttl) || LapsesSince(longer, |h|, ttl)
  {
    forall g: nat | g < |h| ensures Lapsed(longer, g, ttl) <==> Lapsed(h, g, ttl) {
      RefAfterExtends(h, longer, g);
    }
    if LapsesSince(longer, from, ttl) {
      var g: nat :| from <= g < |longer| && Lapsed(longer, g, ttl);
      assert g < |h| ==> Lapsed(h, g, ttl);
    }
    if LapsesSince(h, from, ttl) {
      var g: nat :| from <= g < |h| && Lapsed(h, g, ttl);
      assert Lapsed(longer, g, ttl);
    }
  }

  lemma LastLapse<K, V>(h: seq<Event<K, V>>, e: Event<K, V>, ttl: Time)
    ensures LapsesSince(h + [e], |h|, ttl) <==> Lapsed(h + [e], |h|, ttl)
  {
    hide Lapsed;
  }

  lemma LastGet<K, V>(h: seq<Event<K, V>>, e: Event<K, V>, ttl: Time)
    requires InOrder(h + [e]) && e.op.Get?
    requires e.op.key in RefAfter(h, |h|) && StoresOnly(RefAfter(h, |h|), ttl)
    ensures Lapsed(h + [e], |h|, ttl) <==> Answers(After(h, |h|), e) == Value(None)
  {
    hide InOrder, After, RefAfter;
    EvictionUnobservable(h + [e]);
    assert (h + [e])[|h|] == e && Observes(e);
    AfterExtends(h, e, |h|);
    RefAfterExtends(h, h + [e], |h|);
  }

  /** A Get of a key that was stored finds nothing exactly when it lapses, whatever was evicted meanwhile. */
  lemma GetLapses<K, V>(h: seq<Event<K, V>>, e: Event<K, V>, from: nat, ttl: Time)
    requires InOrder(h + [e]) && e.op.Get? && from <= |h|
    requires e.op.key in RefAfter(h, |h|) && StoresOnly(RefAfter(h, |h|), ttl)
    ensures LapsesSince(h + [e], from, ttl)
      <==> LapsesSince(h, from, ttl) || Answers(After(h, |h|), e) == Value(None)
  {
    hide InOrder, After, RefAfter, Answers, Lapsed, LapsesSince, StoresOnly;
    LastGet(h, e, ttl);
    LastLapse(h, e, ttl);
    LapsesInParts(h, h + [e], from, ttl);
  }

  // A history is not changed by what happens later.
  lemma {:induction false} AfterExtends<K, V>(h: seq<Event<K, V>>, e: Event<K, V>, n: nat)
    requires n <= |h|
    ensures After(h + [e], n) == After(h, n)
  {
    if n > 0 {
      AfterExtends(h, e, n - 1);
    }
  }

  // A key stays stamped, and the time to live stays the same, unless something else is stored or dropped.
  lemma StampsStay<K, V>(h: seq<Event<K, V>>, e: Event<K, V>, ttl: Time)
    requires !e.op.Delete? && !e.op.Clear? && (e.op.Put? || e.op.PutIfAbsent? ==> e.op.ttl == ttl)
    ensures RefAfter(h, |h|).Keys <= RefAfter(h + [e], |h| + 1).Keys
    ensures StoresOnly(RefAfter(h, |h|), ttl) ==> StoresOnly(RefAfter(h + [e], |h| + 1), ttl)
  {
    RefAfterExtends(h, h + [e], |h|);
    assert RefAfter(h + [e], |h| + 1) == RefStep(RefAfter(h, |h|), e);
  }

  ghost predicate Swept<K, V>(before: Cache<K, V>, after: Cache<K, V>, now: Time) {
    && (forall k :: k in after ==> k in before && before[k].expiry >= now && after[k] == before[k])
    && (forall k :: k in before && before[k].expiry >= now ==> k in after)
  }

  lemma RetainingSweeps<K, V>(c: Cache<K, V>, now: Time)
    ensures Swept(c, Retained(c, now), now)
  {
  }

  function FreshPart<K, V>(c: Cache<K, V>, now: Time): Cache<K, V> { map k | k in c && Fresh(c, k, now) :: c[k] }

  /** Size counts every fresh entry, and nothing else exactly when no entry expires at this very instant
      (which Get and Find already call expired). */
  lemma SizeCountsFresh<K, V>(c: Cache<K, V>, now: Time)
    ensures FreshPart(c, now).Keys <= Retained(c, now).Keys
    ensures |Retained(c, now)| == |FreshPart(c, now)| <==> forall k :: k in c ==> c[k].expiry != now
  {
    var edge := set k | k in c && c[k].expiry == now;
    assert Retained(c, now).Keys == FreshPart(c, now).Keys + edge;
    assert |Retained(c, now).Keys| == |FreshPart(c, now).Keys| + |edge|;
    assert edge == {} <==> forall k :: k in c ==> k !in edge;
  }

  /** Such an entry: stored with a time to live of 5, at time 5 Size still counts it and Find does not find it. */
  lemma SizeCountsExpiring()
    ensures var h: seq<Event<string, int>> := [Event(Put("k", 1, 5), 0, 0), Event(Size, 5, 5), Event(Find("k"), 5, 5)];
      && InOrder(h)
      && Answers(After(h, 1), h[1]) == Count(1) && Answers(After(h, 2), h[2]) == Found(false)
  {
    var h: seq<Event<string, int>> := [Event(Put("k", 1, 5), 0, 0), Event(Size, 5, 5), Event(Find("k"), 5, 5)];
    assert After(h, 0) == map[];
    assert After(h, 1) == map["k" := Entry(1, 5, 5)];
    assert Retained(After(h, 1), 5) == After(h, 1);
    assert After(h, 2) == After(h, 1);
  }

  // ---------- what the answers mean, in terms of the history alone ----------

  // The key an operation looks up, if it refreshes the entry it finds.
  ghost predicate Reads<K, V>(e: Event<K, V>, k: K) { (e.op.Get? || e.op.Find? || e.op.PutIfAbsent?) && e.op.key == k }

  ghost predicate Drops<K, V>(e: Event<K, V>, k: K) { e.op.Clear? || (e.op.Delete? && e.op.key == k) }

  // The event that stored what k has after the first n events: the last Put, or the last PutIfAbsent that
  // found nothing alive, unless k was deleted since.
  ghost function StoreOf<K, V>(h: seq<Event<K, V>>, n: nat, k: K): (i: Option<nat>)
    requires n <= |h|
    ensures i.Some? ==> i.value < n && (h[i.value].op.Put? || h[i.value].op.PutIfAbsent?) && h[i.value].op.key == k
    decreases n, 0
  {
    if n == 0 || Drops(h[n - 1], k) then None
    else if h[n - 1].op.Put? && h[n - 1].op.key == k then Some(n - 1)
    else if h[n - 1].op.PutIfAbsent? && h[n - 1].op.key == k && !Held(h, n - 1, k, h[n - 1].now) then Some(n - 1)
    else StoreOf(h, n - 1, k)
  }

  // When k was last touched before event n: by the store h[i] itself, or by a later event that looks k up.
  ghost function LastTouch<K, V>(h: seq<Event<K, V>>, i: nat, n: nat, k: K): Time
    requires i < n <= |h|
  {
    if n - 1 == i then (if h[i].op.PutIfAbsent? then h[i].later else h[i].now)
    else if Reads(h[n - 1], k) then h[n - 1].now
    else LastTouch(h, i, n - 1, k)
  }

  // After n events, k holds a value at time t: every gap between consecutive touches since it was stored,
  // the one up to t included, is strictly less than its time to live.
  ghost predicate Held<K, V>(h: seq<Event<K, V>>, n: nat, k: K, t: Time)
    requires n <= |h|
    decreases n, 1
  {
    && StoreOf(h, n, k).Some?
    && var i := StoreOf(h, n, k).value;
    && t - LastTouch(h, i, n, k) < h[i].op.ttl
    && GapsShort(h, i, n, k)
  }

  ghost predicate GapsShort<K, V>(h: seq<Event<K, V>>, i: nat, n: nat, k: K)
    requires i < n <= |h| && (h[i].op.Put? || h[i].op.PutIfAbsent?)
  {
    forall j :: i < j < n && Reads(h[j], k) ==> h[j].now - LastTouch(h, i, j, k) < h[i].op.ttl
  }

  // The stamp of k after n events is that of its store, and is current unless a gap was too long.
  ghost predicate Explained<K, V>(h: seq<Event<K, V>>, n: nat, k: K, t: Time)
    requires n <= |h|
  {
    var r, i := RefAfter(h, n), StoreOf(h, n, k);
    && (k in r <==> i.Some?)
    && (k in r ==>
      && r[k].value == h[i.value].op.value && r[k].ttl == h[i.value].op.ttl
      && (if GapsShort(h, i.value, n, k) then r[k].last == LastTouch(h, i.value, n, k) else t - r[k].last >= r[k].ttl))
  }

  lemma {:induction false} HistoryExplains<K, V>(h: seq<Event<K, V>>, n: nat, k: K, t: Time)
    requires InOrder(h) && n <= |h| && (n > 0 ==> h[n - 1].later <= t)
    ensures Explained(h, n, k, t)
    ensures Live(RefAfter(h, n), k, t) <==> Held(h, n, k, t)
  {
    if n > 0 {
      HistoryExplains(h, n - 1, k, h[n - 1].now);
      OneEventExplained(h, n, k, t);
    }
  }

  lemma OneEventExplained<K, V>(h: seq<Event<K, V>>, n: nat, k: K, t: Time)
    requires InOrder(h) && 0 < n <= |h| && h[n - 1].later <= t
    requires Explained(h, n - 1, k, h[n - 1].now)
    requires Live(RefAfter(h, n - 1), k, h[n - 1].now) <==> Held(h, n - 1, k, h[n - 1].now)
    ensures Explained(h, n, k, t)
    ensures Live(RefAfter(h, n), k, t) <==> Held(h, n, k, t)
  {
    if Stored(h, n, k) {
      StoreExplained(h, n, k, t);
    } else if Drops(h[n - 1], k) || StoreOf(h, n - 1, k).None? {
      AbsenceExplained(h, n, k, t);
    } else {
      StayExplained(h, n, k, t);
    }
  }

  // Event n - 1 is itself the store.
  ghost predicate Stored<K, V>(h: seq<Event<K, V>>, n: nat, k: K)
    requires 0 < n <= |h|
  {
    StoreOf(h, n, k) == Some(n - 1)
  }

  lemma StoreExplained<K, V>(h: seq<Event<K, V>>, n: nat, k: K, t: Time)
    requires InOrder(h) && 0 < n <= |h| && h[n - 1].later <= t && Stored(h, n, k)
    requires Live(RefAfter(h, n - 1), k, h[n - 1].now) <==> Held(h, n - 1, k, h[n - 1].now)
    ensures Explained(h, n, k, t)
    ensures Live(RefAfter(h, n), k, t) <==> Held(h, n, k, t)
  {
    assert GapsShort(h, n - 1, n, k);
  }

  lemma AbsenceExplained<K, V>(h: seq<Event<K, V>>, n: nat, k: K, t: Time)
    requires InOrder(h) && 0 < n <= |h| && h[n - 1].later <= t && !Stored(h, n, k)
    requires Drops(h[n - 1], k) || StoreOf(h, n - 1, k).None?
    requires Explained(h, n - 1, k, h[n - 1].now)
    requires Live(RefAfter(h, n - 1), k, h[n - 1].now) <==> Held(h, n - 1, k, h[n - 1].now)
    ensures Explained(h, n, k, t)
    ensures Live(RefAfter(h, n), k, t) <==> Held(h, n, k, t)
  {
    hide GapsShort, LastTouch;
  }

  lemma StayExplained<K, V>(h: seq<Event<K, V>>, n: nat, k: K, t: Time)
    requires InOrder(h) && 0 < n <= |h| && h[n - 1].later <= t && !Stored(h, n, k)
    requires !Drops(h[n - 1], k) && StoreOf(h, n - 1, k).Some?
    requires Explained(h, n - 1, k, h[n - 1].now)
    requires Live(RefAfter(h, n - 1), k, h[n - 1].now) <==> Held(h, n - 1, k, h[n - 1].now)
    ensures Explained(h, n, k, t)
    ensures Live(RefAfter(h, n), k, t) <==> Held(h, n, k, t)
  {
    var i := StoreOf(h, n, k).value;
    var lastGap := Reads(h[n - 1], k) ==> h[n - 1].now - LastTouch(h, i, n - 1, k) < h[i].op.ttl;
    assert GapsShort(h, i, n, k) <==> (GapsShort(h, i, n - 1, k) && lastGap);
  }

  /** A value is returned exactly when each gap between consecutive touches of its key since it was stored is
      strictly less than its time to live, and it is the value that was stored. */
  lemma AnswersFromHistory<K, V>(h: seq<Event<K, V>>, n: nat)
    requires InOrder(h) && n < |h|
    ensures h[n].op.Find? ==> Answers(After(h, n), h[n]) == Found(Held(h, n, h[n].op.key, h[n].now))
    ensures h[n].op.Get? ==> Answers(After(h, n), h[n]) == Value(
      if Held(h, n, h[n].op.key, h[n].now) then Some(h[StoreOf(h, n, h[n].op.key).value].op.value) else None)
  {
    if Observes(h[n]) {
      EvictionUnobservable(h);
      HistoryExplains(h, n, h[n].op.key, h[n].now);
    }
  }
}
