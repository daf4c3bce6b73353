/** RemoveInternalWrapperKeys: taking "KEY=value" out of a connection string by text, and what that does to the map. */
module KeyRemoval {

  import opened Options
  import opened ConnectionStrings
  import opened BuiltStrings
  import opened ConnectionKeys

  const INTERNAL_WRAPPER_KEYS := {RDS_TEST_CONN, MONITORING_CONN_UUID, SRW_SKIP}

  // ---------- the replacement of (KEY=)([^;]+) by nothing ----------

  predicate MatchesKey(s: string, key: string) {
    |key| + 1 < |s| && s[..|key|] == key && s[|key|] == '=' && s[|key| + 1] != ';'
  }

  function Remove(s: string, key: string): string
    decreases |s|
  {
    if s == "" then ""
    else if MatchesKey(s, key) then
      var valueEnd := |key| + 1 + ValueRun(s[|key| + 1..]);
      Remove(s[valueEnd..], key)
    else [s[0]] + Remove(s[1..], key)
  }

  method RegexRemove(s: string, key: string) returns (r: string)
    ensures r == Remove(s, key)
  {
    r := "";
    var rest := s;
    while rest != ""
      invariant r + Remove(rest, key) == Remove(s, key)
      decreases |rest|
    {
      if MatchesKey(rest, key) {
        rest := rest[|key| + 1 + ValueRun(rest[|key| + 1..])..];
      } else {
        assert (r + [rest[0]]) + Remove(rest[1..], key) == r + ([rest[0]] + Remove(rest[1..], key));
        r, rest := r + [rest[0]], rest[1..];
      }
    }
  }

  function RemoveAll(s: string, keys: seq<string>): string
    decreases |keys|
  {
    if keys == [] then s else RemoveAll(Remove(s, keys[0]), keys[1..])
  }

  ghost predicate ListsKeys(order: seq<string>, keys: set<string>) {
    (forall k :: k in order <==> k in keys) && forall i, j :: 0 <= i < j < |order| ==> order[i] != order[j]
  }

  // The keys are removed one after the other, in some order.
  ghost predicate Stripped(s: string, keys: set<string>, r: string) {
    exists order: seq<string> :: ListsKeys(order, keys) && r == RemoveAll(s, order)
  }

  method RemoveInternalWrapperKeys(connStr: string) returns (result: string)
    ensures Stripped(connStr, INTERNAL_WRAPPER_KEYS, result)
  {
    hide Remove;
    result := connStr;
    ghost var order: seq<string> := [];
    var pending := INTERNAL_WRAPPER_KEYS;
    while pending != {}
      invariant pending <= INTERNAL_WRAPPER_KEYS && ListsKeys(order, INTERNAL_WRAPPER_KEYS - pending)
      invariant result == RemoveAll(connStr, order)
      decreases |pending|
    {
      var key :| key in pending;
      pending := pending - {key};
      RemoveOneMore(connStr, order, key);
      result := RegexRemove(result, key);
      order := order + [key];
    }
    assert INTERNAL_WRAPPER_KEYS - {} == INTERNAL_WRAPPER_KEYS;
  }

  lemma {:induction false} RemoveOneMore(s: string, keys: seq<string>, key: string)
    ensures RemoveAll(s, keys + [key]) == Remove(RemoveAll(s, keys), key)
    decreases |keys|
  {
    hide Remove;
    if keys == [] {
      assert keys + [key] == [key];
    } else {
      assert (keys + [key])[1..] == keys[1..] + [key];
      RemoveOneMore(Remove(s, keys[0]), keys[1..], key);
    }
  }

  // ---------- removal inside one segment ----------

  // Where the key and its equals sign first stand before a value in a segment, or the length of the segment.
  function Occurrence(seg: string, key: string): (n: nat)
    ensures n <= |seg|
  {
    if seg == "" || MatchesKey(seg, key) then 0 else 1 + Occurrence(seg[1..], key)
  }

  // The text of the key, its equals sign and at least one more character stand somewhere in the segment.
  predicate Occurs(seg: string, key: string) { exists i :: 0 <= i <= |seg| && MatchesKey(seg[i..], key) }

  lemma {:induction false} OccursIffFound(seg: string, key: string)
    ensures Occurrence(seg, key) < |seg| <==> Occurs(seg, key)
  {
    assert seg[0..] == seg;
    if seg != "" && !MatchesKey(seg, key) {
      OccursIffFound(seg[1..], key);
      if Occurs(seg[1..], key) {
        var i :| 0 <= i <= |seg[1..]| && MatchesKey(seg[1..][i..], key);
        assert seg[i + 1..] == seg[1..][i..];
      }
      if Occurs(seg, key) {
        var i :| 0 <= i <= |seg| && MatchesKey(seg[i..], key);
        assert i > 0 && seg[i..] == seg[1..][i - 1..];
      }
    }
  }

  // In a segment everything from the first occurrence on is removed.
  lemma {:induction false} RemoveInSegment(seg: string, key: string)
    requires IsSegment(seg)
    ensures Remove(seg, key) == seg[..Occurrence(seg, key)]
  {
    if seg == "" {
    } else if MatchesKey(seg, key) {
      var value := seg[|key| + 1..];
      ValueRunIs(value, |value|);
      assert seg[|seg|..] == "";
    } else {
      RemoveInSegment(seg[1..], key);
    }
  }

  lemma MatchStaysInSegment(s: string, n: nat, key: string)
    requires SegmentAt(s, n) && ';' !in key
    ensures MatchesKey(s, key) <==> MatchesKey(s[..n], key)
    ensures MatchesKey(s, key) ==> ValueRun(s[|key| + 1..]) == n - |key| - 1
  {
    if |key| < n {
      assert s[..n][..|key|] == s[..|key|];
      NextSegmentAt(s, n, |key| + 1);
      RunsStopAt(s[|key| + 1..], n - |key| - 1);
    } else if n < |key| <= |s| {
      assert s[..|key|][n] == ';';
    }
  }

  /** Removal goes through the segments one by one. */
  lemma {:induction false} RemoveInSegments(s: string, n: nat, key: string)
    requires SegmentAt(s, n) && ';' !in key
    ensures Remove(s, key) == Remove(s[..n], key) + ";" + Remove(s[n + 1..], key)
    decreases |s|
  {
    hide MatchesKey, SegmentAt;
    MatchStaysInSegment(s, n, key);
    NextSegmentAt(s, n, 0);
    if n == 0 {
      RemoveSeparator(s, key);
    } else if MatchesKey(s, key) {
      MatchFillsSegment(s, n, key);
      NextSegmentAt(s, n, n);
      RemoveInSegments(s[n..], 0, key);
    } else {
      SegmentInside(s, n);
      NextSegmentAt(s, n, 1);
      RemoveInSegments(s[1..], n - 1, key);
      var front, back := Remove(s[..n][1..], key), Remove(s[n + 1..], key);
      assert [s[0]] + (front + ";" + back) == ([s[0]] + front) + ";" + back;
    }
  }

  lemma SegmentInside(s: string, n: nat)
    requires SegmentAt(s, n)
    ensures n < |s|
  {
  }

  lemma RemoveSeparator(s: string, key: string)
    requires SegmentAt(s, 0) && ';' !in key
    ensures Remove(s, key) == Remove(s[..0], key) + ";" + Remove(s[1..], key)
  {
    MatchStaysInSegment(s, 0, key);
    assert !MatchesKey(s[..0], key);
  }

  lemma MatchFillsSegment(s: string, n: nat, key: string)
    requires SegmentAt(s, n) && ';' !in key && MatchesKey(s, key)
    ensures Remove(s, key) == Remove(s[n..], key) && Remove(s[..n], key) == ""
  {
    MatchStaysInSegment(s, n, key);
    RemoveInSegment(s[..n], key);
  }

  // ---------- removal from a built string ----------

  function RemoveEach(segs: seq<string>, key: string): (r: seq<string>)
    ensures |r| == |segs|
  {
    seq(|segs|, i requires 0 <= i < |segs| => Remove(segs[i], key))
  }

  lemma RemovedStaysSegment(seg: string, key: string)
    requires IsSegment(seg)
    ensures IsSegment(Remove(seg, key))
  {
    RemoveInSegment(seg, key);
  }

  lemma {:induction false} RemoveFromJoin(segs: seq<string>, key: string)
    requires AllSegments(segs) && ';' !in key
    ensures Remove(Join(segs), key) == Join(RemoveEach(segs, key))
    ensures AllSegments(RemoveEach(segs, key))
  {
    hide Remove, SegmentAt, IsSegment;
    forall i | 0 <= i < |segs| ensures IsSegment(RemoveEach(segs, key)[i]) {
      RemovedStaysSegment(segs[i], key);
    }
    if |segs| > 1 {
      JoinSegmentAt(segs);
      RemoveInSegments(Join(segs), |segs[0]|, key);
      RemoveFromJoin(segs[1..], key);
      assert RemoveEach(segs, key)[1..] == RemoveEach(segs[1..], key);
    } else {
      RemoveFromNothing(key);
    }
  }

  lemma RemoveFromNothing(key: string)
    ensures Remove("", key) == ""
  {
  }

  // What is left of a segment when the keys have been removed one after the other.
  function CutLength(seg: string, keys: seq<string>): (n: nat)
    ensures n <= |seg|
    decreases |keys|
  {
    if keys == [] then |seg| else CutLength(seg[..Occurrence(seg, keys[0])], keys[1..])
  }

  function CutBy(segs: seq<string>, keys: seq<string>): (r: seq<string>)
    ensures |r| == |segs|
  {
    seq(|segs|, i requires 0 <= i < |segs| => segs[i][..CutLength(segs[i], keys)])
  }

  lemma {:induction false} RemoveAllFromJoin(segs: seq<string>, keys: seq<string>)
    requires AllSegments(segs) && forall k :: k in keys ==> ';' !in k
    ensures RemoveAll(Join(segs), keys) == Join(CutBy(segs, keys)) && AllSegments(CutBy(segs, keys))
    decreases |keys|
  {
    hide Remove, Occurrence, IsSegment, Join;
    if keys == [] {
      forall i | 0 <= i < |segs| ensures CutBy(segs, keys)[i] == segs[i] {
        assert segs[i][..|segs[i]|] == segs[i];
      }
      assert CutBy(segs, keys) == segs;
    } else {
      RemoveFromJoin(segs, keys[0]);
      RemoveAllFromJoin(RemoveEach(segs, keys[0]), keys[1..]);
      forall i | 0 <= i < |segs| ensures CutBy(RemoveEach(segs, keys[0]), keys[1..])[i] == CutBy(segs, keys)[i] {
        RemoveInSegment(segs[i], keys[0]);
        var once := Occurrence(segs[i], keys[0]);
        assert segs[i][..once][..CutLength(segs[i], keys)] == segs[i][..CutLength(segs[i], keys)];
      }
      assert CutBy(RemoveEach(segs, keys[0]), keys[1..]) == CutBy(segs, keys);
    }
  }

  /** A segment is left whole exactly when none of the keys occurs in it. */
  lemma {:induction false} WholeIffNoOccurrence(seg: string, keys: seq<string>)
    ensures CutLength(seg, keys) == |seg| <==> forall k :: k in keys ==> !Occurs(seg, k)
    decreases |keys|
  {
    hide Occurs, Occurrence;
    if keys != [] {
      OccursIffFound(seg, keys[0]);
      assert keys == [keys[0]] + keys[1..];
      if !Occurs(seg, keys[0]) {
        assert seg[..|seg|] == seg;
        WholeIffNoOccurrence(seg, keys[1..]);
      }
    }
  }

  /** The segment of a removed key loses its value, whatever was removed from it before. */
  lemma {:induction false} RemovedKeyLosesValue(p: Pair, cut: nat, keys: seq<string>)
    requires Good(p) && p.key in keys && cut <= |Segment(p)|
    ensures CutLength(Segment(p)[..cut], keys) <= |p.key| + 1
    decreases |keys|
  {
    var seg := Segment(p)[..cut];
    if keys[0] == p.key {
      if cut > |p.key| + 1 {
        PairInCut(p, cut);
        assert seg[..|p.key|] == p.key;
        assert MatchesKey(seg, p.key);
      }
    } else {
      var once := Occurrence(seg, keys[0]);
      assert seg[..once] == Segment(p)[..once];
      RemovedKeyLosesValue(p, once, keys[1..]);
    }
  }

  // No key that stays, nor its value, contains the text that removing one of the keys looks for.
  ghost predicate Untouched(m: Connection, removed: set<string>) {
    forall k, r :: k in m && k !in removed && r in removed ==> !Occurs(Segment(Pair(k, m[k])), r)
  }

  function CutLengths(order: seq<Pair>, keys: seq<string>): (cuts: seq<nat>)
    ensures |cuts| == |order|
    ensures forall i :: 0 <= i < |order| ==> cuts[i] <= |Segment(order[i])|
  {
    seq(|order|, i requires 0 <= i < |order| => CutLength(Segment(order[i]), keys))
  }

  lemma ParseAfterRemoval(order: seq<Pair>, keys: seq<string>, removed: set<string>, upper: string -> string)
    requires forall i :: 0 <= i < |order| ==> Good(order[i])
    requires forall i :: 0 <= i < |order| && order[i].key !in removed ==> upper(order[i].key) == order[i].key
    requires ListsKeys(keys, removed) && forall k :: k in removed ==> ';' !in k
    ensures forall i :: 0 <= i < |order| && order[i].key in removed ==>
      Left(order[i], CutLengths(order, keys)[i]).None?
    ensures Parse(RemoveAll(Join(Segments(order)), keys), map[], upper) == ParsedCuts(order, CutLengths(order, keys), map[])
  {
    hide Segment, CutLength, RemoveAll, Parse, ParseAll, ParsedCuts, Join, Good;
    var segs, cuts := Segments(order), CutLengths(order, keys);
    AllAreSegments(order);
    RemoveAllFromJoin(segs, keys);
    assert CutBy(segs, keys) == CutSegments(order, cuts);
    ParseJoin(CutSegments(order, cuts), map[], upper);
    forall i | 0 <= i < |order| && order[i].key in removed ensures Left(order[i], cuts[i]).None? {
      var seg := Segment(order[i]);
      assert seg[..|seg|] == seg;
      RemovedKeyLosesValue(order[i], |seg|, keys);
    }
    ParseCuts(order, cuts, map[], upper);
  }

  /** Removing keys from a built string and parsing it erases them from the map, despite the empty segments left
      behind, exactly when no pair that stays contains the text of a removed key, an equals sign and a value. */
  lemma RemovalErases(built: string, m: Connection, removed: set<string>, stripped: string, upper: string -> string)
    requires BuiltFrom(built, m) && Stripped(built, removed, stripped) && forall k :: k in removed ==> ';' !in k
    requires forall k :: k in m ==> GoodKey(k) && GoodValue(m[k]) && (k !in removed ==> upper(k) == k)
    ensures Parse(stripped, map[], upper) == m - removed <==> Untouched(m, removed)
  {
    hide Lists, ListsKeys, Join, Segments, Parse, RemoveAll, Untouched, GoodKey, GoodValue;
    var order: seq<Pair> :| Lists(order, m) && built == Join(Segments(order));
    var keys: seq<string> :| ListsKeys(keys, removed) && stripped == RemoveAll(built, keys);
    RemovalInOrderErases(order, m, keys, removed, upper);
  }

  lemma RemovalInOrderErases(
    order: seq<Pair>, m: Connection, keys: seq<string>, removed: set<string>, upper: string -> string)
    requires Lists(order, m) && ListsKeys(keys, removed) && forall k :: k in removed ==> ';' !in k
    requires forall k :: k in m ==> GoodKey(k) && GoodValue(m[k]) && (k !in removed ==> upper(k) == k)
    ensures Parse(RemoveAll(Join(Segments(order)), keys), map[], upper) == m - removed <==> Untouched(m, removed)
  {
    hide Segment, CutLength, RemoveAll, Parse, ParsedCuts, Join, Occurs;
    ParseAfterRemoval(order, keys, removed, upper);
    CutsDecide(order, CutLengths(order, keys), m, removed);
    forall i | 0 <= i < |order|
      ensures CutLengths(order, keys)[i] == |Segment(order[i])| <==>
        forall r :: r in removed ==> !Occurs(Segment(order[i]), r)
    {
      WholeIffNoOccurrence(Segment(order[i]), keys);
    }
    UntouchedInOrder(order, m, removed);
  }

  lemma UntouchedInOrder(order: seq<Pair>, m: Connection, removed: set<string>)
    requires Lists(order, m)
    ensures Untouched(m, removed) <==>
      forall i :: 0 <= i < |order| && order[i].key !in removed ==>
        forall r :: r in removed ==> !Occurs(Segment(order[i]), r)
  {
    hide Segment, Occurs;
    forall i | 0 <= i < |order| ensures order[i] == Pair(order[i].key, m[order[i].key]) {
    }
  }

  /** When no value contains '=', a pair is touched exactly when its key ends in a removed key. */
  lemma EndingsDecide(m: Connection, removed: set<string>)
    requires forall k :: k in m && k !in removed ==> GoodKey(k) && GoodValue(m[k]) && '=' !in m[k]
    ensures Untouched(m, removed) <==> forall k, r :: k in m && k !in removed && r in removed ==> !EndsIn(k, r)
  {
    hide Occurs, EndsIn;
    forall k, r | k in m && k !in removed && r in removed
      ensures Occurs(Segment(Pair(k, m[k])), r) <==> EndsIn(k, r)
    {
      if EndsIn(k, r) {
        EndingIsTouched(k, m[k], r);
      } else {
        OnlyOneEquals(k, m[k], r);
      }
    }
  }

  predicate EndsIn(k: string, r: string) { |r| <= |k| && k[|k| - |r|..] == r }

  lemma EndingIsTouched(k: string, v: string, r: string)
    requires EndsIn(k, r) && GoodValue(v)
    ensures Occurs(Segment(Pair(k, v)), r)
  {
    var seg := Segment(Pair(k, v));
    assert seg[|k| - |r|..] == r + "=" + v;
    assert MatchesKey(seg[|k| - |r|..], r);
  }

  lemma OnlyOneEquals(k: string, v: string, r: string)
    requires '=' !in k && '=' !in v && !EndsIn(k, r)
    ensures !Occurs(Segment(Pair(k, v)), r)
  {
    var seg := Segment(Pair(k, v));
    forall i | 0 <= i <= |seg| ensures !MatchesKey(seg[i..], r) {
      assert forall j :: 0 <= j < |k| ==> seg[j] == k[j] && k[j] in k;
      assert forall j :: |k| < j < |seg| ==> seg[j] == v[j - |k| - 1] && v[j - |k| - 1] in v;
      if i + |r| == |k| {
        assert seg[i..][..|r|] == k[i..];
      } else if i + |r| < |seg| {
        assert seg[i..][|r|] == seg[i + |r|];
      }
    }
  }

  /** A key that merely ends in a removed key is touched, so its pair does not survive the removal, whatever the
      others are. */
  lemma LongerKeyIsTouched(m: Connection, removed: set<string>, k: string, r: string)
    requires k in m && k !in removed && r in removed && EndsIn(k, r) && GoodValue(m[k])
    ensures !Untouched(m, removed)
  {
    EndingIsTouched(k, m[k], r);
  }

  /** Such a key: none of the wrapper's own, but ending in one of them. */
  lemma LongerKeyIsNotInternal()
    ensures "X" + RDS_TEST_CONN !in INTERNAL_WRAPPER_KEYS && EndsIn("X" + RDS_TEST_CONN, RDS_TEST_CONN)
  {
    assert |"X" + RDS_TEST_CONN| == 14 && |SRW_SKIP| == 36 && |MONITORING_CONN_UUID| == 36;
  }

  /** The wrapper's keys are such keys. */
  lemma InternalKeysHaveNoSeparator()
    ensures forall k :: k in INTERNAL_WRAPPER_KEYS ==> GoodKey(k)
  {
    hide GoodKey;
    TestKeyIsGood();
    UuidKeyIsGood();
    SkipKeyIsGood();
  }

  lemma TestKeyIsGood()
    ensures GoodKey(RDS_TEST_CONN)
  {
  }

  lemma UuidKeyIsGood()
    ensures GoodKey(MONITORING_CONN_UUID)
  {
  }

  lemma SkipKeyIsGood()
    ensures GoodKey(SRW_SKIP)
  {
  }

  /** The whole path: build from a map, remove the wrapper's own keys, parse again. */
  method BuildRemoveParse(m: Connection, upper: string -> string) returns (r: Connection)
    requires forall k :: k in m ==> GoodKey(k) && GoodValue(m[k]) && (k !in INTERNAL_WRAPPER_KEYS ==> upper(k) == k)
    ensures r == m - INTERNAL_WRAPPER_KEYS <==> Untouched(m, INTERNAL_WRAPPER_KEYS)
  {
    hide BuiltFrom, Stripped, Parse, Untouched;
    var built := BuildFullConnectionString(m);
    var stripped := RemoveInternalWrapperKeys(built);
    InternalKeysHaveNoSeparator();
    RemovalErases(built, m, INTERNAL_WRAPPER_KEYS, stripped, upper);
    r := ParseConnectionString(stripped, map[], upper);
  }

  /** Building, in full or without the wrapper's keys, and parsing again. */
  method BuildParse(m: Connection, awsKeys: set<string>, upper: string -> string)
    returns (full: Connection, least: Connection)
    requires forall k :: k in m ==> GoodKey(k) && GoodValue(m[k]) && upper(k) == k
    ensures full == m && least == m - awsKeys
  {
    hide BuiltFrom, Parse;
    var built := BuildFullConnectionString(m);
    ParseBuilt(built, m, upper);
    full := ParseConnectionString(built, map[], upper);
    var minimum := BuildMinimumConnectionString(m, awsKeys);
    ParseBuilt(minimum, m - awsKeys, upper);
    least := ParseConnectionString(minimum, map[], upper);
  }
}
