/**
 * Connection strings: the pairs a regular expression search finds in them, the strings built from a map, and the
 * rewrite that takes the wrapper's own keys out again. Case folding of keys is a parameter.
 */
module ConnectionStrings {

  import opened Options

  // ---------- the search for ([^;=]+)=([^;]+) ----------

  // The pair found: a key from `start` to `mid`, an equals sign, a value up to `end`.
  datatype Found = Found(start: nat, mid: nat, end: nat)
  {
    function Later(n: nat): Found { Found(start + n, mid + n, end + n) }
  }

  predicate IsKeyChar(c: char) { c != ';' && c != '=' }

  // The longest run of key characters, and of characters other than ';', at the front.
  function KeyRun(s: string): (n: nat)
    ensures n <= |s| && (forall i :: 0 <= i < n ==> IsKeyChar(s[i])) && (n < |s| ==> !IsKeyChar(s[n]))
  {
    if s == "" || !IsKeyChar(s[0]) then 0 else 1 + KeyRun(s[1..])
  }

  function ValueRun(s: string): (n: nat)
    ensures n <= |s| && (forall i :: 0 <= i < n ==> s[i] != ';') && (n < |s| ==> s[n] == ';')
  {
    if s == "" || s[0] == ';' then 0 else 1 + ValueRun(s[1..])
  }

  predicate StartsPair(s: string) {
    var j := KeyRun(s);
    0 < j && j + 1 < |s| && s[j] == '=' && s[j + 1] != ';'
  }

  function Search(s: string): (r: Option<Found>)
    ensures r.Some? ==> r.value.start < r.value.mid && r.value.mid + 1 < r.value.end <= |s|
  {
    if s == "" then None
    else if StartsPair(s) then
      var j := KeyRun(s);
      Some(Found(0, j, j + 1 + ValueRun(s[j + 1..])))
    else
      match Search(s[1..])
      case None => None
      case Some(f) => Some(f.Later(1))
  }

  // What the expression matches: a non-empty key, an equals sign and a non-empty value, as far as it goes.
  ghost predicate Matches(s: string, f: Found) {
    && f.start < f.mid && f.mid + 1 < f.end <= |s| && s[f.mid] == '='
    && (forall i :: f.start <= i < f.mid ==> IsKeyChar(s[i]))
    && (forall i :: f.mid < i < f.end ==> s[i] != ';')
    && (f.end < |s| ==> s[f.end] == ';')
  }

  lemma {:induction false} KeyRunIs(s: string, n: nat)
    requires n <= |s| && (forall i :: 0 <= i < n ==> IsKeyChar(s[i])) && (n < |s| ==> !IsKeyChar(s[n]))
    ensures KeyRun(s) == n
  {
    if n > 0 {
      KeyRunIs(s[1..], n - 1);
    }
  }

  lemma {:induction false} ValueRunIs(s: string, n: nat)
    requires n <= |s| && (forall i :: 0 <= i < n ==> s[i] != ';') && (n < |s| ==> s[n] == ';')
    ensures ValueRun(s) == n
  {
    if n > 0 {
      ValueRunIs(s[1..], n - 1);
    }
  }

  lemma MatchAtFront(s: string, f: Found)
    requires Matches(s, f) && f.start == 0
    ensures StartsPair(s) && Search(s) == Some(f)
  {
    KeyRunIs(s, f.mid);
    ValueRunIs(s[f.mid + 1..], f.end - f.mid - 1);
  }

  lemma {:induction false} SearchFindsMatch(s: string)
    ensures Search(s).Some? ==> Matches(s, Search(s).value)
  {
    if s != "" && !StartsPair(s) {
      SearchFindsMatch(s[1..]);
    }
  }

  /** The search finds the leftmost match, and fails only when there is none. */
  lemma {:induction false} SearchFindsLeftmost(s: string, f: Found)
    requires Matches(s, f)
    ensures Search(s).Some? && Matches(s, Search(s).value) && Search(s).value.start <= f.start
    ensures Search(s).value.start == f.start ==> Search(s).value == f
    decreases |s|
  {
    SearchFindsMatch(s);
    if f.start == 0 {
      MatchAtFront(s, f);
    } else if !StartsPair(s) {
      var earlier := Found(f.start - 1, f.mid - 1, f.end - 1);
      assert Matches(s[1..], earlier);
      SearchFindsLeftmost(s[1..], earlier);
    }
  }

  function Shift(r: Option<Found>, n: nat): Option<Found> { if r.Some? then Some(r.value.Later(n)) else None }

  lemma SearchOneLater(s: string, start: nat)
    requires start < |s|
    ensures s[start..][1..] == s[start + 1..]
    ensures !StartsPair(s[start..]) ==> Shift(Search(s[start..]), start) == Shift(Search(s[start + 1..]), start + 1)
  {
    assert s[start..][1..] == s[start + 1..];
  }

  // Tries one start after the other, as the expression engine does.
  method RegexSearch(s: string) returns (r: Option<Found>)
    ensures r == Search(s)
  {
    hide KeyRun, ValueRun;
    var start := 0;
    assert s[0..] == s;
    while start < |s|
      invariant start <= |s| && Search(s) == Shift(Search(s[start..]), start)
    {
      SearchOneLater(s, start);
      var rest := s[start..];
      if StartsPair(rest) {
        var j := KeyRun(rest);
        return Some(Found(start, start + j, start + j + 1 + ValueRun(rest[j + 1..])));
      }
      start := start + 1;
    }
    r := None;
  }

  // ---------- parsing ----------

  type Connection = map<string, string>

  function KeyOf(s: string, f: Found): string
    requires f.start <= f.mid <= |s|
  {
    s[f.start..f.mid]
  }

  function ValueOf(s: string, f: Found): string
    requires f.mid < f.end <= |s|
  {
    s[f.mid + 1..f.end]
  }

  function Parse(s: string, m: Connection, upper: string -> string): Connection
    decreases |s|
  {
    match Search(s)
    case None => m
    case Some(f) => Parse(s[f.end..], m[upper(KeyOf(s, f)) := ValueOf(s, f)], upper)
  }

  method ParseConnectionString(connStr: string, connMap: Connection, upper: string -> string) returns (r: Connection)
    ensures r == Parse(connStr, connMap, upper)
  {
    var connStrItr := connStr;
    r := connMap;
    var found := RegexSearch(connStrItr);
    while found.Some?
      invariant found == Search(connStrItr)
      invariant Parse(connStrItr, r, upper) == Parse(connStr, connMap, upper)
      decreases |connStrItr|
    {
      var key, val := KeyOf(connStrItr, found.value), ValueOf(connStrItr, found.value);
      r := r[upper(key) := val];
      connStrItr := connStrItr[found.value.end..];
      found := RegexSearch(connStrItr);
    }
  }

  // ---------- segments ----------

  // A part of a connection string between separators.
  predicate IsSegment(s: string) { ';' !in s }

  // The segment s[..n] is followed by a separator.
  predicate SegmentAt(s: string, n: nat) { n < |s| && s[n] == ';' && IsSegment(s[..n]) }

  lemma RunsStopAt(s: string, n: nat)
    requires SegmentAt(s, n)
    ensures KeyRun(s) == KeyRun(s[..n]) && ValueRun(s) == n == ValueRun(s[..n])
    ensures StartsPair(s) <==> StartsPair(s[..n])
  {
    var a := s[..n];
    assert forall i :: 0 <= i < n ==> s[i] == a[i] && a[i] in a;
    KeyRunIs(s, KeyRun(a));
    ValueRunIs(s, n);
    ValueRunIs(a, n);
  }

  lemma NextSegmentAt(s: string, n: nat, i: nat)
    requires SegmentAt(s, n) && i <= n
    ensures SegmentAt(s[i..], n - i) && s[i..][..n - i] == s[..n][i..] && s[i..][n - i + 1..] == s[n + 1..]
  {
    assert s[i..][..n - i] == s[..n][i..];
  }

  // A pair is found inside the segment or after it, never across the separator.
  lemma {:induction false} SearchInSegments(s: string, n: nat)
    requires SegmentAt(s, n)
    ensures Search(s[..n]).Some? ==> Search(s[..n]).value.end == n
    ensures Search(s) == if Search(s[..n]).Some? then Search(s[..n]) else Shift(Search(s[n + 1..]), n + 1)
  {
    hide SegmentAt, KeyRun, ValueRun, StartsPair, Search;
    RunsStopAt(s, n);
    NextSegmentAt(s, n, 0);
    if n > 0 {
      NextSegmentAt(s, n, 1);
      if StartsPair(s) {
        PairFillsSegment(s, n);
      } else {
        SearchLater(s);
        SearchLater(s[..n]);
        SearchInSegments(s[1..], n - 1);
      }
    } else {
      EmptySegment(s);
    }
  }

  lemma SearchLater(s: string)
    requires s != "" && !StartsPair(s)
    ensures Search(s) == Shift(Search(s[1..]), 1)
  {
  }

  lemma EmptySegment(s: string)
    requires SegmentAt(s, 0)
    ensures Search(s) == Shift(Search(s[1..]), 1) && Search(s[..0]) == None
  {
  }

  lemma PairFillsSegment(s: string, n: nat)
    requires SegmentAt(s, n) && StartsPair(s)
    ensures Search(s) == Search(s[..n]) && Search(s).Some? && Search(s).value.end == n
  {
    hide KeyRun, ValueRun;
    RunsStopAt(s, n);
    var j := KeyRun(s);
    NextSegmentAt(s, n, j + 1);
    RunsStopAt(s[j + 1..], n - j - 1);
  }

  lemma ParseFound(s: string, m: Connection, upper: string -> string)
    ensures Parse(s, m, upper) == match Search(s)
      case None => m
      case Some(f) => Parse(s[f.end..], m[upper(KeyOf(s, f)) := ValueOf(s, f)], upper)
  {
  }

  lemma LaterParts(s: string, n: nat, f: Found)
    requires n <= |s| && f.start <= f.mid < f.end <= |s| - n
    ensures KeyOf(s, f.Later(n)) == KeyOf(s[n..], f) && ValueOf(s, f.Later(n)) == ValueOf(s[n..], f)
    ensures s[n..][f.end..] == s[f.end + n..]
  {
  }

  // Parsing skips what holds no pair.
  lemma ParseSuffix(s: string, n: nat, m: Connection, upper: string -> string)
    requires n <= |s| && Search(s) == Shift(Search(s[n..]), n)
    ensures Parse(s, m, upper) == Parse(s[n..], m, upper)
  {
    hide Parse, Search, KeyOf, ValueOf;
    ParseFound(s, m, upper);
    ParseFound(s[n..], m, upper);
    if Search(s[n..]).Some? {
      LaterParts(s, n, Search(s[n..]).value);
    }
  }

  /** Parsing goes through the segments one by one. */
  lemma ParseInSegments(s: string, n: nat, m: Connection, upper: string -> string)
    requires SegmentAt(s, n)
    ensures Parse(s, m, upper) == Parse(s[n + 1..], Parse(s[..n], m, upper), upper)
  {
    hide Parse, Search, SegmentAt, KeyOf, ValueOf;
    SegmentFits(s, n);
    SearchInSegments(s, n);
    ParseFound(s[..n], m, upper);
    if Search(s[..n]).Some? {
      var f := Search(s[..n]).value;
      ParseFound(s, m, upper);
      FoundInFront(s, n, f);
      ParseEmpty(m[upper(KeyOf(s, f)) := ValueOf(s, f)], upper);
      NextSegmentAt(s, n, n);
      EmptySegment(s[n..]);
      ParseSuffix(s[n..], 1, m[upper(KeyOf(s, f)) := ValueOf(s, f)], upper);
    } else {
      ParseSuffix(s, n + 1, m, upper);
    }
  }

  lemma SegmentFits(s: string, n: nat)
    requires SegmentAt(s, n)
    ensures n < |s|
  {
  }

  lemma FoundInFront(s: string, n: nat, f: Found)
    requires SegmentAt(s, n) && f.start <= f.mid < f.end == n
    ensures KeyOf(s, f) == KeyOf(s[..n], f) && ValueOf(s, f) == ValueOf(s[..n], f)
    ensures s[..n][f.end..] == "" && s[f.end..] == s[n..] && n < |s|
  {
    var a := s[..n];
    assert a[f.start..f.mid] == s[f.start..f.mid];
    assert a[f.mid + 1..f.end] == s[f.mid + 1..f.end];
  }

  lemma ParseEmpty(m: Connection, upper: string -> string)
    ensures Parse("", m, upper) == m
  {
  }
}
