/** Cleaning a queried host list: one writer at most, and it comes last. */
module TopologyUtil {

  import opened Options
  import opened Hosts

  function Readers(hosts: seq<HostInfo>): seq<HostInfo> {
    if hosts == [] then []
    else (if hosts[0].IsHostWriter() then [] else [hosts[0]]) + Readers(hosts[1..])
  }

  // w is the writer that was updated last, and the first of those in the list.
  ghost predicate IsNewestWriter(hosts: seq<HostInfo>, w: int) {
    && 0 <= w < |hosts| && hosts[w].IsHostWriter()
    && (forall i :: 0 <= i < |hosts| && hosts[i].IsHostWriter() ==> hosts[i].lastUpdate <= hosts[w].lastUpdate)
    && (forall i :: 0 <= i < w && hosts[i].IsHostWriter() ==> hosts[i].lastUpdate < hosts[w].lastUpdate)
  }

  ghost predicate NoWriter(hosts: seq<HostInfo>) { forall i :: 0 <= i < |hosts| ==> !hosts[i].IsHostWriter() }

  lemma NothingRead()
    ensures Readers([]) == [] && NoWriter([])
  {
  }

  // How one more host changes which writer is the newest.
  lemma WriterAppend(hosts: seq<HostInfo>, h: HostInfo, newest: int)
    ensures NoWriter(hosts) ==>
      if h.IsHostWriter() then IsNewestWriter(hosts + [h], |hosts|) else NoWriter(hosts + [h])
    ensures IsNewestWriter(hosts, newest) ==>
      && 0 <= newest < |hosts|
      && IsNewestWriter(hosts + [h],
           if h.IsHostWriter() && hosts[newest].lastUpdate < h.lastUpdate then |hosts| else newest)
  {
  }

  // A topology that may be cached: empty, or readers followed by the only writer.
  predicate Cacheable(hosts: seq<HostInfo>) {
    hosts != [] ==>
      && hosts[|hosts| - 1].IsHostWriter()
      && (forall i :: 0 <= i < |hosts| - 1 ==> !hosts[i].IsHostWriter())
  }

  // What QueryTopology makes of the rows it read.
  ghost predicate IsVerified(queried: seq<HostInfo>, hosts: seq<HostInfo>) {
    if hosts == [] then NoWriter(queried)
    else exists w :: IsNewestWriter(queried, w) && hosts == Readers(queried) + [queried[w]]
  }

  lemma VerifiedIsCacheable(queried: seq<HostInfo>, hosts: seq<HostInfo>)
    requires IsVerified(queried, hosts)
    ensures Cacheable(hosts)
  {
    ReadersAreNoWriters(queried);
  }

  lemma {:induction false} ReadersAppend(hosts: seq<HostInfo>, h: HostInfo)
    ensures Readers(hosts + [h]) == Readers(hosts) + (if h.IsHostWriter() then [] else [h])
  {
    if hosts == [] {
      assert hosts + [h] == [h];
      assert Readers([h][1..]) == [];
    } else {
      assert (hosts + [h])[1..] == hosts[1..] + [h];
      ReadersAppend(hosts[1..], h);
      var head: seq<HostInfo> := if hosts[0].IsHostWriter() then [] else [hosts[0]];
      var last: seq<HostInfo> := if h.IsHostWriter() then [] else [h];
      assert head + (Readers(hosts[1..]) + last) == (head + Readers(hosts[1..])) + last;
    }
  }

  lemma {:induction false} ReadersAreNoWriters(hosts: seq<HostInfo>)
    ensures forall i :: 0 <= i < |Readers(hosts)| ==> !Readers(hosts)[i].IsHostWriter()
  {
    if hosts != [] {
      ReadersAreNoWriters(hosts[1..]);
    }
  }

  /** The readers in their order and then the newest writer; nothing when there is no writer. */
  method VerifyWriter(allHosts: seq<HostInfo>) returns (hosts: seq<HostInfo>)
    ensures IsVerified(allHosts, hosts) && Cacheable(hosts)
  {
    hide Readers, IsNewestWriter, NoWriter, Cacheable;
    hosts := [];
    NothingRead();
    var newestWriter: Option<HostInfo> := None;
    ghost var newest := -1;
    for i := 0 to |allHosts|
      invariant hosts == Readers(allHosts[..i])
      invariant newestWriter.None? ==> NoWriter(allHosts[..i])
      invariant newestWriter.Some? ==> 0 <= newest < i
      invariant newestWriter.Some? ==> IsNewestWriter(allHosts[..i], newest) && newestWriter.value == allHosts[newest]
    {
      var host := allHosts[i];
      assert allHosts[..i + 1] == allHosts[..i] + [host];
      ReadersAppend(allHosts[..i], host);
      WriterAppend(allHosts[..i], host, newest);
      if host.IsHostWriter() {
        if newestWriter.None? || newestWriter.value.lastUpdate < host.lastUpdate {
          newestWriter := Some(host);
          newest := i;
        }
      } else {
        hosts := hosts + [host];
      }
    }
    assert allHosts[..|allHosts|] == allHosts;
    if newestWriter.None? {
      hosts := [];
    } else {
      hosts := hosts + [newestWriter.value];
    }
    VerifiedIsCacheable(allHosts, hosts);
  }

  ghost predicate IsFirstWriter(hosts: seq<HostInfo>, i: int) {
    0 <= i < |hosts| && hosts[i].IsHostWriter() && forall j :: 0 <= j < i ==> !hosts[j].IsHostWriter()
  }

  /** The first writer of the list; of a cacheable topology, its last element. */
  method GetWriter(hosts: seq<HostInfo>) returns (writer: Option<HostInfo>)
    ensures writer.None? <==> forall i :: 0 <= i < |hosts| ==> !hosts[i].IsHostWriter()
    ensures writer.Some? ==> exists i :: IsFirstWriter(hosts, i) && writer.value == hosts[i]
    ensures Cacheable(hosts) && hosts != [] ==> writer == Some(hosts[|hosts| - 1])
  {
    for i := 0 to |hosts|
      invariant forall j :: 0 <= j < i ==> !hosts[j].IsHostWriter()
    {
      if hosts[i].IsHostWriter() {
        assert IsFirstWriter(hosts, i);
        return Some(hosts[i]);
      }
    }
    return None;
  }
}
