/**
 * The strings built from a map of connection properties, parsed back and with the wrapper's own keys removed.
 * A map is traversed in some order that lists every key once; nothing here depends on which.
 */
module BuiltStrings {

  import opened Options
  import opened ConnectionStrings

  datatype Pair = Pair(key: string, value: string)

  function Segment(p: Pair): string { p.key + "=" + p.value }

  function Segments(order: seq<Pair>): (segs: seq<string>)
    ensures |segs| == |order|
  {
    seq(|order|, i requires 0 <= i < |order| => Segment(order[i]))
  }

  function Join(segs: seq<string>): string {
    if segs == [] then "" else if |segs| == 1 then segs[0] else segs[0] + ";" + Join(segs[1..])
  }

  ghost predicate AllSegments(segs: seq<string>) { forall i :: 0 <= i < |segs| ==> IsSegment(segs[i]) }

  // The order lists every pair of the map, each once.
  ghost predicate Lists(order: seq<Pair>, m: Connection) {
    && (forall i :: 0 <= i < |order| ==> order[i].key in m && m[order[i].key] == order[i].value)
    && (forall i, j :: 0 <= i < j < |order| ==> order[i].key != order[j].key)
    && (forall k :: k in m ==> exists i :: 0 <= i < |order| && order[i].key == k)
  }

  // ---------- building ----------

  lemma {:induction false} JoinOneMore(segs: seq<string>, last: string)
    requires segs != []
    ensures Join(segs + [last]) == Join(segs) + ";" + last
  {
    var more := segs + [last];
    assert more[1..] == segs[1..] + [last];
    if |segs| > 1 {
      JoinOneMore(segs[1..], last);
      assert Join(more) == segs[0] + ";" + (Join(segs[1..]) + ";" + last);
    } else {
      assert Join(more) == segs[0] + ";" + last;
    }
  }

  lemma JoinIsNotEmpty(order: seq<Pair>)
    requires order != []
    ensures Join(Segments(order)) != ""
  {
    assert '=' in Segment(order[0]);
  }

  lemma AppendCases(order: seq<Pair>, p: Pair)
    ensures Segments(order + [p]) == Segments(order) + [Segment(p)]
    ensures order == [] <==> Join(Segments(order)) == ""
    ensures Join(Segments(order + [p])) ==
      (if order == [] then "" else Join(Segments(order)) + ";") + (p.key + "=" + p.value)
  {
    assert Segments(order + [p]) == Segments(order) + [Segment(p)];
    if order != [] {
      JoinIsNotEmpty(order);
      JoinOneMore(Segments(order), Segment(p));
    }
  }

  // Every pair of the map is written once, in some order, with separators in between.
  ghost predicate BuiltFrom(s: string, m: Connection) {
    exists order: seq<Pair> :: Lists(order, m) && s == Join(Segments(order))
  }

  // The pairs listed so far are those of the keys no longer pending that are written at all.
  ghost predicate Written(order: seq<Pair>, connMap: Connection, pending: set<string>, skipped: set<string>) {
    && pending <= connMap.Keys
    && Lists(order, connMap - pending - skipped)
  }

  lemma WriteOne(order: seq<Pair>, connMap: Connection, pending: set<string>, skipped: set<string>, k: string)
    requires Written(order, connMap, pending, skipped) && k in pending
    ensures k in skipped ==> Written(order, connMap, pending - {k}, skipped)
    ensures k !in skipped ==> Written(order + [Pair(k, connMap[k])], connMap, pending - {k}, skipped)
  {
    var before, after := connMap - pending - skipped, connMap - (pending - {k}) - skipped;
    if k in skipped {
      assert after == before;
    } else {
      var more := order + [Pair(k, connMap[k])];
      assert after == before[k := connMap[k]];
      forall j | j in after ensures exists i :: 0 <= i < |more| && more[i].key == j {
        if j == k {
          assert more[|order|].key == j;
        } else {
          var i :| 0 <= i < |order| && order[i].key == j;
          assert more[i].key == j;
        }
      }
    }
  }

  method BuildMinimumConnectionString(connMap: Connection, awsKeys: set<string>) returns (connStream: string)
    ensures BuiltFrom(connStream, connMap - awsKeys)
  {
    hide Lists, Join;
    connStream := "";
    ghost var order: seq<Pair> := [];
    var pending := connMap.Keys;
    WriteNone(connMap, awsKeys);
    while pending != {}
      invariant Written(order, connMap, pending, awsKeys) && connStream == Join(Segments(order))
      decreases |pending|
    {
      var k :| k in pending;
      WriteOne(order, connMap, pending, awsKeys, k);
      pending := pending - {k};
      if k !in awsKeys {
        AppendCases(order, Pair(k, connMap[k]));
        if connStream != "" {
          connStream := connStream + ";";
        }
        connStream := connStream + (k + "=" + connMap[k]);
        order := order + [Pair(k, connMap[k])];
      }
    }
    assert connMap - {} - awsKeys == connMap - awsKeys;
  }

  lemma WriteNone(connMap: Connection, skipped: set<string>)
    ensures Written([], connMap, connMap.Keys, skipped) && Join(Segments([])) == ""
  {
  }

  method BuildFullConnectionString(connMap: Connection) returns (connStream: string)
    ensures BuiltFrom(connStream, connMap)
  {
    hide Lists, Join;
    connStream := "";
    ghost var order: seq<Pair> := [];
    var pending := connMap.Keys;
    WriteNone(connMap, {});
    while pending != {}
      invariant Written(order, connMap, pending, {}) && connStream == Join(Segments(order))
      decreases |pending|
    {
      var k :| k in pending;
      WriteOne(order, connMap, pending, {}, k);
      pending := pending - {k};
      AppendCases(order, Pair(k, connMap[k]));
      if connStream != "" {
        connStream := connStream + ";";
      }
      connStream := connStream + (k + "=" + connMap[k]);
      order := order + [Pair(k, connMap[k])];
    }
    assert connMap - {} - {} == connMap;
  }

  // ---------- parsing what was built ----------

  predicate GoodKey(k: string) { k != "" && ';' !in k && '=' !in k }

  predicate GoodValue(v: string) { v != "" && ';' !in v }

  predicate Good(p: Pair) { GoodKey(p.key) && GoodValue(p.value) }

  function ParseAll(segs: seq<string>, m: Connection, upper: string -> string): Connection {
    if segs == [] then m else ParseAll(segs[1..], Parse(segs[0], m, upper), upper)
  }

  lemma JoinSegmentAt(segs: seq<string>)
    requires |segs| > 1 && IsSegment(segs[0])
    ensures var s, n := Join(segs), |segs[0]|;
      SegmentAt(s, n) && s[..n] == segs[0] && s[n + 1..] == Join(segs[1..])
  {
    var s, n := segs[0] + ";" + Join(segs[1..]), |segs[0]|;
    assert s[..n] == segs[0] && s[n + 1..] == Join(segs[1..]) && s[n] == ';';
  }

  lemma {:induction false} ParseJoin(segs: seq<string>, m: Connection, upper: string -> string)
    requires AllSegments(segs)
    ensures Parse(Join(segs), m, upper) == ParseAll(segs, m, upper)
  {
    hide Search, SegmentAt, IsSegment;
    if |segs| > 1 {
      JoinSegmentAt(segs);
      ParseInSegments(Join(segs), |segs[0]|, m, upper);
      ParseJoin(segs[1..], Parse(segs[0], m, upper), upper);
    } else {
      ParseNothing(m, upper);
    }
  }

  lemma ParseNothing(m: Connection, upper: string -> string)
    ensures Parse("", m, upper) == m
  {
  }

  // What parsing a segment cut short finds: a shorter value, or no pair at all once the value is gone.
  function Left(p: Pair, cut: nat): Option<string>
    requires cut <= |Segment(p)|
  {
    if cut > |p.key| + 1 then Some(p.value[..cut - |p.key| - 1]) else None
  }

  lemma ParseCut(p: Pair, cut: nat, m: Connection, upper: string -> string)
    requires Good(p) && cut <= |Segment(p)|
    ensures Parse(Segment(p)[..cut], m, upper) ==
      if Left(p, cut).Some? then m[upper(p.key) := Left(p, cut).value] else m
  {
    var s := Segment(p)[..cut];
    if cut > |p.key| + 1 {
      var f := Found(0, |p.key|, cut);
      PairInCut(p, cut);
      MatchAtFront(s, f);
      hide Search;
      ParseFound(s, m, upper);
      assert s[cut..] == "";
      ParseNothing(m[upper(KeyOf(s, f)) := ValueOf(s, f)], upper);
    } else {
      NoPairInCut(p, cut);
    }
  }

  lemma PairInCut(p: Pair, cut: nat)
    requires Good(p) && |p.key| + 1 < cut <= |Segment(p)|
    ensures var s, f := Segment(p)[..cut], Found(0, |p.key|, cut);
      Matches(s, f) && KeyOf(s, f) == p.key && ValueOf(s, f) == p.value[..cut - |p.key| - 1]
  {
    var s, n := Segment(p)[..cut], |p.key|;
    assert s[n] == '=' && s[..n] == p.key;
    assert forall i :: 0 <= i < n ==> s[i] == p.key[i];
    assert forall i :: n < i < cut ==> s[i] == p.value[i - n - 1];
    assert s[n + 1..cut] == p.value[..cut - n - 1];
  }

  lemma NoPairInCut(p: Pair, cut: nat)
    requires Good(p) && cut <= |p.key| + 1
    ensures cut <= |Segment(p)| && Search(Segment(p)[..cut]) == None
  {
    var s := Segment(p)[..cut];
    assert forall i :: 0 <= i < cut - 1 ==> s[i] == p.key[i] && p.key[i] in p.key;
    NothingToFind(s);
  }

  lemma {:induction false} NothingToFind(s: string)
    requires forall i :: 0 <= i < |s| - 1 ==> s[i] != '='
    ensures Search(s) == None
  {
    if s != "" {
      NothingToFind(s[1..]);
    }
  }

  // ---------- the map that cut segments parse to ----------

  ghost predicate CutsOf(order: seq<Pair>, cuts: seq<nat>) {
    |cuts| == |order| && forall i :: 0 <= i < |order| ==> Good(order[i]) && cuts[i] <= |Segment(order[i])|
  }

  function CutSegments(order: seq<Pair>, cuts: seq<nat>): (segs: seq<string>)
    requires |cuts| == |order| && forall i :: 0 <= i < |order| ==> cuts[i] <= |Segment(order[i])|
    ensures |segs| == |order|
  {
    seq(|order|, i requires 0 <= i < |order| => Segment(order[i])[..cuts[i]])
  }

  // Keys fold to themselves, but for those whose value is cut off anyway.
  ghost predicate Folded(order: seq<Pair>, cuts: seq<nat>, upper: string -> string)
    requires CutsOf(order, cuts)
  {
    forall i :: 0 <= i < |order| && Left(order[i], cuts[i]).Some? ==> upper(order[i].key) == order[i].key
  }

  function ParsedCuts(order: seq<Pair>, cuts: seq<nat>, m: Connection): Connection
    requires |cuts| == |order| && forall i :: 0 <= i < |order| ==> cuts[i] <= |Segment(order[i])|
  {
    if order == [] then m
    else
      var left := Left(order[0], cuts[0]);
      ParsedCuts(order[1..], cuts[1..], if left.Some? then m[order[0].key := left.value] else m)
  }

  lemma {:induction false} ParseCuts(order: seq<Pair>, cuts: seq<nat>, m: Connection, upper: string -> string)
    requires CutsOf(order, cuts) && Folded(order, cuts, upper)
    ensures ParseAll(CutSegments(order, cuts), m, upper) == ParsedCuts(order, cuts, m)
  {
    hide Good, Segment, Left, Parse;
    if order != [] {
      ParseCut(order[0], cuts[0], m, upper);
      var left := Left(order[0], cuts[0]);
      ParseCuts(order[1..], cuts[1..], if left.Some? then m[order[0].key := left.value] else m, upper);
      assert CutSegments(order, cuts)[1..] == CutSegments(order[1..], cuts[1..]);
    }
  }

  // The value a key has in the end: what is left of its own segment.
  lemma {:induction false} ParsedCutsAt(order: seq<Pair>, cuts: seq<nat>, m: Connection, k: string)
    requires |cuts| == |order| && forall i :: 0 <= i < |order| ==> cuts[i] <= |Segment(order[i])|
    requires forall i, j :: 0 <= i < j < |order| ==> order[i].key != order[j].key
    ensures (forall i :: 0 <= i < |order| ==> order[i].key != k) ==>
      (k in ParsedCuts(order, cuts, m) <==> k in m) && (k in m ==> ParsedCuts(order, cuts, m)[k] == m[k])
    ensures forall i :: 0 <= i < |order| && order[i].key == k ==>
      var left := Left(order[i], cuts[i]);
      && (left.Some? ==> k in ParsedCuts(order, cuts, m) && ParsedCuts(order, cuts, m)[k] == left.value)
      && (left.None? && k !in m ==> k !in ParsedCuts(order, cuts, m))
  {
    hide Segment, Left;
    if order != [] {
      var left := Left(order[0], cuts[0]);
      var rest, next := order[1..], if left.Some? then m[order[0].key := left.value] else m;
      ParsedCutsAt(rest, cuts[1..], next, k);
      assert forall i :: 0 < i < |order| ==> order[i] == rest[i - 1];
    }
  }

  /** Parsing the cut segments gives back the map without a set of keys exactly when every segment of those keys
      lost its value and every other segment is whole. */
  lemma CutsDecide(order: seq<Pair>, cuts: seq<nat>, m: Connection, gone: set<string>)
    requires CutsOf(order, cuts) && Lists(order, m)
    requires forall i :: 0 <= i < |order| && order[i].key in gone ==> Left(order[i], cuts[i]).None?
    ensures ParsedCuts(order, cuts, map[]) == m - gone <==>
      forall i :: 0 <= i < |order| && order[i].key !in gone ==> cuts[i] == |Segment(order[i])|
  {
    hide Segment, Left, ParsedCuts, GoodKey, GoodValue;
    var r := ParsedCuts(order, cuts, map[]);
    forall i | 0 <= i < |order|
      ensures order[i].key in gone ==> order[i].key !in r
      ensures order[i].key !in gone ==>
        (order[i].key in r && r[order[i].key] == m[order[i].key] <==> cuts[i] == |Segment(order[i])|)
    {
      ParsedCutsAt(order, cuts, map[], order[i].key);
      WholeValueLeft(order[i], cuts[i]);
    }
    forall k | k in r ensures k in m {
      ParsedCutsAt(order, cuts, map[], k);
    }
    if forall i :: 0 <= i < |order| && order[i].key !in gone ==> cuts[i] == |Segment(order[i])| {
      assert r == m - gone;
    }
  }

  lemma WholeValueLeft(p: Pair, cut: nat)
    requires Good(p) && cut <= |Segment(p)|
    ensures Left(p, cut) == Some(p.value) <==> cut == |Segment(p)|
  {
    assert p.value[..|p.value|] == p.value;
    assert Left(p, cut).Some? ==> |Left(p, cut).value| == cut - |p.key| - 1;
  }

  function WholeCuts(order: seq<Pair>): (cuts: seq<nat>)
    ensures |cuts| == |order|
  {
    seq(|order|, i requires 0 <= i < |order| => |Segment(order[i])|)
  }

  lemma WholeCutsKeepAll(order: seq<Pair>)
    ensures CutSegments(order, WholeCuts(order)) == Segments(order)
  {
    hide Segment;
    forall i | 0 <= i < |order| ensures CutSegments(order, WholeCuts(order))[i] == Segments(order)[i] {
      var seg := Segment(order[i]);
      assert seg[..|seg|] == seg;
    }
  }

  /** Parsing a built string into an empty map gives the map back, in whatever order it was built. */
  lemma ParseBuilt(built: string, m: Connection, upper: string -> string)
    requires BuiltFrom(built, m)
    requires forall k :: k in m ==> GoodKey(k) && GoodValue(m[k]) && upper(k) == k
    ensures Parse(built, map[], upper) == m
  {
    hide Segment, Parse, ParsedCuts, Join, Left;
    var order: seq<Pair> :| Lists(order, m) && built == Join(Segments(order));
    var cuts := WholeCuts(order);
    WholeCutsKeepAll(order);
    AllAreSegments(order);
    ParseJoin(Segments(order), map[], upper);
    ParseCuts(order, cuts, map[], upper);
    CutsDecide(order, cuts, m, {});
    assert m - {} == m;
  }

  lemma AllAreSegments(order: seq<Pair>)
    requires forall i :: 0 <= i < |order| ==> Good(order[i])
    ensures AllSegments(Segments(order))
  {
    forall i | 0 <= i < |order| ensures IsSegment(Segments(order)[i]) {
      assert Segment(order[i]) == order[i].key + ['='] + order[i].value;
    }
  }
}
