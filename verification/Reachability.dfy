/** Refusing cached metadata the slab reader would read past the end of. */
module Reachability {
  import opened Bytes
  import opened Records
  import opened Envelope

  const HOST_PAGE: nat := 100

  /** The sectors the reader keeps: those on hosts the network still lists, in order. */
  function Listed(sectors: seq<Sector>, known: set<Bytes>): (kept: seq<Sector>)
    ensures |kept| <= |sectors|
  {
    if sectors == [] then []
    else Listed(sectors[..|sectors| - 1], known)
         + if sectors[|sectors| - 1].hostKey in known then [sectors[|sectors| - 1]] else []
  }

  /** The reader takes the first `minShards` of what it keeps, without counting them first. */
  predicate Readable(s: Slab, known: set<Bytes>) {
    s.minShards > 0 && s.minShards <= |Listed(s.sectors, known)|
  }

  method CountListed(sectors: seq<Sector>, known: set<Bytes>) returns (reachable: nat)
    ensures reachable == |Listed(sectors, known)|
  {
    reachable := 0;
    for i := 0 to |sectors|
      invariant reachable == |Listed(sectors[..i], known)|
    {
      assert sectors[..i + 1][..i] == sectors[..i];
      if sectors[i].hostKey in known {
        reachable := reachable + 1;
      }
    }
    assert sectors[..|sectors|] == sectors;
  }

  /** Metadata passes exactly when, for every slab, as many sectors as the reader takes are on listed hosts. */
  method CheckReachable(slabs: seq<Slab>, known: set<Bytes>) returns (ok: bool)
    ensures ok <==> forall i :: 0 <= i < |slabs| ==> Readable(slabs[i], known)
  {
    for i := 0 to |slabs|
      invariant forall j :: 0 <= j < i ==> Readable(slabs[j], known)
    {
      if slabs[i].minShards == 0 || |slabs[i].sectors| < slabs[i].minShards {
        return false;
      }
      var reachable := CountListed(slabs[i].sectors, known);
      if reachable < slabs[i].minShards {
        return false;
      }
    }
    ok := true;
  }

  /** Five minutes, in milliseconds. */
  const HOST_SET_TTL := 300_000

  class HostSet {
    var hosts: Option<set<Bytes>>
    var fetchedAt: int

    constructor ()
      ensures hosts == None
    {
      hosts, fetchedAt := None, 0;
    }

    /**
     * The hosts the network lists: those of the last fetch while it is recent enough, of a new one
     * otherwise. A fetch that fails, which none does while `steady`, leaves what was known as it was.
     */
    method KnownHosts(listed: seq<Bytes>, now: int, steady: bool) returns (known: Option<set<Bytes>>)
      modifies this
      ensures steady ==> known.Some?
      ensures known.Some? ==> known == hosts && now - fetchedAt < HOST_SET_TTL
      ensures (hosts == old(hosts) && fetchedAt == old(fetchedAt))
        || (hosts == Some(set h <- listed) && fetchedAt == now && known == hosts)
      ensures old(hosts).Some? && now - old(fetchedAt) < HOST_SET_TTL ==> known == old(hosts)
      ensures !(old(hosts).Some? && now - old(fetchedAt) < HOST_SET_TTL) && known.Some? ==> known == Some(set h <- listed)
    {
      if hosts.Some? && now - fetchedAt < HOST_SET_TTL {
        return hosts;
      }
      known := FetchHosts(listed, steady);
      if known.Some? {
        hosts, fetchedAt := known, now;
      }
    }
  }

  /** Reads the host set a page at a time, ending at the first short page: every listed host and no other. */
  method FetchHosts(hosts: seq<Bytes>, steady: bool) returns (known: Option<set<Bytes>>)
    ensures steady ==> known.Some?
    ensures known.Some? ==> known.value == set h <- hosts
  {
    var found: set<Bytes>, offset := {}, 0;
    while offset <= |hosts|
      invariant offset <= |hosts| && found == set h <- hosts[..offset]
      decreases |hosts| - offset
    {
      var answered := *;
      if !answered && !steady {
        return None;
      }
      var end := if offset + HOST_PAGE < |hosts| then offset + HOST_PAGE else |hosts|;
      var batch := hosts[offset..end];
      assert hosts[..end] == hosts[..offset] + batch;
      found := found + set h <- batch;
      offset := end;
      if |batch| < HOST_PAGE {
        break;
      }
    }
    assert hosts[..|hosts|] == hosts;
    known := Some(found);
  }

  /** The reader keeps every sector on a listed host, as often as it is there, and no other. */
  lemma {:induction false} ListedAre(sectors: seq<Sector>, known: set<Bytes>)
    ensures forall s :: multiset(Listed(sectors, known))[s] == if s.hostKey in known then multiset(sectors)[s] else 0
    decreases |sectors|
  {
    if sectors != [] {
      ListedAre(sectors[..|sectors| - 1], known);
      assert sectors == sectors[..|sectors| - 1] + [sectors[|sectors| - 1]];
    }
  }
}
