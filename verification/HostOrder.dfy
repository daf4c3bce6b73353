/** The order of host names and the sort that GetHost applies to the eligible hosts. */
module HostOrder {

  import opened Hosts

  // The order of std::string: character by character, a proper prefix first.
  predicate Less(a: string, b: string) {
    b != "" && (a == "" || a[0] < b[0] || (a[0] == b[0] && Less(a[1..], b[1..])))
  }

  lemma {:induction false} LessTotal(a: string, b: string)
    ensures a == b || Less(a, b) || Less(b, a)
    ensures !(Less(a, b) && (a == b || Less(b, a)))
  {
    if a != "" && b != "" {
      LessTotal(a[1..], b[1..]);
      assert a == [a[0]] + a[1..] && b == [b[0]] + b[1..];
    }
  }

  lemma {:induction false} LessTransitive(a: string, b: string, c: string)
    requires Less(a, b) && Less(b, c)
    ensures Less(a, c)
  {
    if a != "" && a[0] == b[0] == c[0] {
      LessTransitive(a[1..], b[1..], c[1..]);
    }
  }

  // Not after is transitive as well.
  lemma NotAfterTransitive(a: string, b: string, c: string)
    requires !Less(b, a) && !Less(c, b)
    ensures !Less(c, a)
  {
    LessTotal(a, b);
    LessTotal(b, c);
    LessTotal(a, c);
    if a != b && b != c {
      LessTransitive(a, b, c);
    }
  }

  ghost predicate SortedByName(hosts: seq<HostInfo>) {
    forall i, j :: 0 <= i < j < |hosts| ==> !Less(hosts[j].host, hosts[i].host)
  }

  ghost predicate DistinctNames(hosts: seq<HostInfo>) {
    forall i, j :: 0 <= i < j < |hosts| ==> hosts[i].host != hosts[j].host
  }

  ghost predicate IsSortOf(sorted: seq<HostInfo>, hosts: seq<HostInfo>) {
    SortedByName(sorted) && multiset(sorted) == multiset(hosts)
  }

  lemma InsertKeepsSorted(sorted: seq<HostInfo>, p: nat, x: HostInfo)
    requires SortedByName(sorted) && p <= |sorted|
    requires p > 0 ==> !Less(x.host, sorted[p - 1].host)
    requires p < |sorted| ==> Less(x.host, sorted[p].host)
    ensures SortedByName(Inserted(sorted, p, x))
  {
    forall k | 0 <= k < p ensures !Less(x.host, sorted[k].host) {
      if k < p - 1 {
        NotAfterTransitive(sorted[k].host, sorted[p - 1].host, x.host);
      }
    }
    forall k | p <= k < |sorted| ensures !Less(sorted[k].host, x.host) {
      LessTotal(x.host, sorted[p].host);
      if p < k {
        NotAfterTransitive(x.host, sorted[p].host, sorted[k].host);
      }
    }
  }

  function Inserted(sorted: seq<HostInfo>, p: nat, x: HostInfo): seq<HostInfo>
    requires p <= |sorted|
  {
    sorted[..p] + [x] + sorted[p..]
  }

  lemma InsertKeepsElements(sorted: seq<HostInfo>, p: nat, x: HostInfo)
    requires p <= |sorted|
    ensures multiset(Inserted(sorted, p, x)) == multiset(sorted) + multiset{x}
  {
    assert sorted == sorted[..p] + sorted[p..];
  }

  method InsertByName(sorted: seq<HostInfo>, x: HostInfo) returns (r: seq<HostInfo>)
    requires SortedByName(sorted)
    ensures SortedByName(r) && multiset(r) == multiset(sorted) + multiset{x}
  {
    hide SortedByName, Inserted, Less;
    var p := |sorted|;
    while p > 0 && Less(x.host, sorted[p - 1].host)
      invariant 0 <= p <= |sorted|
      invariant p < |sorted| ==> Less(x.host, sorted[p].host)
    {
      p := p - 1;
    }
    InsertKeepsSorted(sorted, p, x);
    InsertKeepsElements(sorted, p, x);
    r := Inserted(sorted, p, x);
  }

  method SortByName(hosts: seq<HostInfo>) returns (sorted: seq<HostInfo>)
    ensures IsSortOf(sorted, hosts)
  {
    sorted := [];
    for i := 0 to |hosts|
      invariant IsSortOf(sorted, hosts[..i])
    {
      assert hosts[..i + 1] == hosts[..i] + [hosts[i]];
      sorted := InsertByName(sorted, hosts[i]);
    }
    assert hosts[..|hosts|] == hosts;
  }

  lemma FirstIsSame(a: seq<HostInfo>, b: seq<HostInfo>)
    requires SortedByName(a) && SortedByName(b) && DistinctNames(a) && multiset(a) == multiset(b) && a != []
    ensures b != [] && a[0] == b[0]
  {
    assert |b| == |multiset(b)| == |multiset(a)|;
    assert a[0] in multiset(b) && b[0] in multiset(a);
    var i :| 0 <= i < |b| && b[i] == a[0];
    var j :| 0 <= j < |a| && a[j] == b[0];
    NotAfterEachOther(a, j, b, i);
  }

  lemma NotAfterEachOther(a: seq<HostInfo>, j: nat, b: seq<HostInfo>, i: nat)
    requires SortedByName(a) && SortedByName(b) && DistinctNames(a)
    requires i < |b| && j < |a| && b[i] == a[0] && a[j] == b[0]
    ensures a[0] == b[0]
  {
    hide Less;
    LessTotal(a[0].host, b[0].host);
  }

  // With distinct names there is only one sorted order, whatever the sort does with ties.
  lemma {:induction false} SortIsUnique(a: seq<HostInfo>, b: seq<HostInfo>)
    requires SortedByName(a) && SortedByName(b) && DistinctNames(a) && multiset(a) == multiset(b)
    ensures a == b
  {
    hide Less, SortedByName, DistinctNames, Without;
    if a == [] {
      assert |b| == |multiset(b)|;
    } else {
      FirstIsSame(a, b);
      WithoutElements(a, 0);
      WithoutElements(b, 0);
      WithoutFirst(a);
      WithoutFirst(b);
      SortIsUnique(a[1..], b[1..]);
      assert a == [a[0]] + a[1..] && b == [b[0]] + b[1..];
    }
  }

  lemma WithoutFirst(hosts: seq<HostInfo>)
    requires hosts != []
    ensures Without(hosts, 0) == hosts[1..]
    ensures SortedByName(hosts) ==> SortedByName(hosts[1..])
    ensures DistinctNames(hosts) ==> DistinctNames(hosts[1..])
  {
    hide Less;
    assert forall i :: 0 <= i < |hosts| - 1 ==> hosts[1..][i] == hosts[i + 1];
  }

  function Without(hosts: seq<HostInfo>, p: nat): seq<HostInfo>
    requires p < |hosts|
  {
    hosts[..p] + hosts[p + 1..]
  }

  lemma WithoutElements(hosts: seq<HostInfo>, p: nat)
    requires p < |hosts|
    ensures multiset(Without(hosts, p)) == multiset(hosts) - multiset{hosts[p]}
  {
    assert hosts == hosts[..p] + [hosts[p]] + hosts[p + 1..];
  }

  lemma WithoutStaysDistinct(hosts: seq<HostInfo>, p: nat)
    requires p < |hosts| && DistinctNames(hosts)
    ensures DistinctNames(Without(hosts, p))
    ensures forall h :: h in Without(hosts, p) ==> h.host != hosts[p].host
  {
  }

  lemma NoneIsDistinct(hosts: seq<HostInfo>)
    ensures hosts == [] ==> DistinctNames(hosts)
  {
  }

  lemma {:induction false} DistinctPermutes(a: seq<HostInfo>, b: seq<HostInfo>)
    requires multiset(a) == multiset(b) && DistinctNames(b)
    ensures DistinctNames(a)
    decreases |a|, 1
  {
    hide DistinctNames, Without;
    if a == [] {
      NoneIsDistinct(a);
    } else {
      assert a[0] in multiset(b);
      var p :| 0 <= p < |b| && b[p] == a[0];
      WithoutElements(a, 0);
      WithoutElements(b, p);
      WithoutStaysDistinct(b, p);
      PermutesFurther(a, b, p);
    }
  }

  lemma PermutesFurther(a: seq<HostInfo>, b: seq<HostInfo>, p: nat)
    requires a != [] && p < |b| && a[0] == b[p] && multiset(Without(a, 0)) == multiset(Without(b, p))
    requires DistinctNames(Without(b, p)) && forall h :: h in Without(b, p) ==> h.host != b[p].host
    ensures DistinctNames(a)
    decreases |a|, 0
  {
    var rest := Without(a, 0);
    assert rest == a[1..];
    DistinctPermutes(rest, Without(b, p));
    RestHasOtherName(rest, Without(b, p), b[p].host);
    FirstIsDistinct(a);
  }

  lemma RestHasOtherName(rest: seq<HostInfo>, others: seq<HostInfo>, name: string)
    requires multiset(rest) == multiset(others) && forall h :: h in others ==> h.host != name
    ensures forall k :: 0 <= k < |rest| ==> rest[k].host != name
  {
    forall k | 0 <= k < |rest| ensures rest[k].host != name {
      assert rest[k] in multiset(rest);
    }
  }

  lemma FirstIsDistinct(a: seq<HostInfo>)
    requires a != [] && DistinctNames(a[1..]) && forall k :: 0 <= k < |a[1..]| ==> a[1..][k].host != a[0].host
    ensures DistinctNames(a)
  {
    assert a == [a[0]] + a[1..];
  }
}
