/** The persisted vector index: an immutable base, appended deltas, and folding one into the other. */
module IndexStore {
  import opened Bytes
  import opened Records
  import opened KeyedLog
  import opened IndexFile

  function Key(e: Entry): Id { e.id }

  function LiveOnly(es: seq<Entry>): seq<Entry> {
    if es == [] then []
    else if Removed(es[0]) then LiveOnly(es[1..])
    else [es[0]] + LiveOnly(es[1..])
  }

  /** What hydration returns for these entries on disk. */
  function Hydrated(disk: seq<Entry>): seq<Entry> { LiveOnly(Replay(Key, [], disk)) }

  const MIN_COMPACT_BYTES: nat := 65536

  /** Where a compaction stops: at a failing file operation, or because the process died there. */
  datatype Fault = NoFault | BeforeRename | BeforeTruncate

  /** What is assumed of the cipher over the files. */
  ghost predicate Sealing(s: Sealer) { Inverts(s) && LengthPreserving(s) && Bounded(s) }

  /** The two files are whatever bytes an earlier process left, damaged or not. */
  class Store {
    const sealer: Sealer
    var base: Bytes
    var delta: Bytes
    var baseBytes: nat
    var deltaBytes: nat
    var written: nat
    var compactions: nat

    ghost predicate Valid()
    {
      Sealing(sealer)
    }

    /** The entries the files read as: each file up to its first damage. */
    ghost function OnDisk(): seq<Entry>
      reads this
    {
      Contents(sealer, base) + Contents(sealer, delta)
    }

    /** The delta has no damage an append would land behind. */
    ghost predicate Sound()
      reads this
    {
      Intact(sealer, delta)
    }

    /** An append was cut short, and what follows it is never read. */
    ghost predicate Stuck()
      reads this
    {
      Hopeless(sealer, delta)
    }

    /** The delta is under the floor, or no more than a quarter of the base. */
    ghost predicate Trim()
      reads this
    {
      deltaBytes < MIN_COMPACT_BYTES || 4 * deltaBytes <= baseBytes
    }

    /** With this many bytes appended the delta would be trim no longer. */
    ghost predicate Outgrown(size: nat)
      reads this
    {
      deltaBytes + size >= MIN_COMPACT_BYTES && 4 * (deltaBytes + size) > baseBytes
    }

    constructor Open(sealer: Sealer, base: Bytes, delta: Bytes)
      requires Sealing(sealer)
      ensures baseBytes == |base| && deltaBytes == |delta| && written == compactions == 0
      ensures Valid() && this.sealer == sealer && this.base == base && this.delta == delta
      ensures OnDisk() == Contents(sealer, base) + Contents(sealer, delta)
    {
      this.sealer, this.base, this.delta := sealer, base, delta;
      baseBytes, deltaBytes, written, compactions := |base|, |delta|, 0, 0;
    }

    method SealLine(e: Entry) returns (line: Bytes)
      requires Valid() && Fits(e)
      ensures IsLine(sealer, line, e)
    {
      var nonce: nat := *;
      line := Line(sealer, nonce, e);
      SealedIsLine(sealer, nonce, e);
    }

    /**
     * Appends one vector or removal; an entry whose width contradicts its vector is refused. The entry
     * is on disk unless an earlier append was cut short, in which case nothing read from disk changes.
     */
    method Append(e: Entry) returns (ok: bool, ghost line: Bytes)
      requires Valid() && (|e.vector| == e.dim ==> Fits(e))
      modifies this
      ensures Valid() && (ok <==> |e.vector| == e.dim)
      ensures if ok then IsLine(sealer, line, e) else line == []
      ensures base == old(base) && delta == (if ok then old(delta) + line else old(delta))
      ensures deltaBytes == old(deltaBytes) + |line| && written == old(written) + |line|
      ensures baseBytes == old(baseBytes) && compactions == old(compactions)
      ensures ok && old(Sound()) ==> Sound() && OnDisk() == old(OnDisk()) + [e]
      ensures old(Stuck()) ==> Stuck() && OnDisk() == old(OnDisk())
    {
      line := [];
      if |e.vector| != e.dim {
        return false, line;
      }
      var sealed := SealLine(e);
      Extended(e, sealed);
      delta := delta + sealed;
      deltaBytes := deltaBytes + |sealed|;
      written := written + |sealed|;
      ok, line := true, sealed;
    }

    /** What adding one line to the delta makes of it. */
    lemma Extended(e: Entry, line: Bytes)
      requires Valid() && IsLine(sealer, line, e)
      ensures Sound() ==> Intact(sealer, delta + line)
      ensures Sound() ==> Contents(sealer, base) + Contents(sealer, delta + line) == OnDisk() + [e]
      ensures Stuck() ==> Hopeless(sealer, delta + line) && Contents(sealer, delta + line) == Contents(sealer, delta)
    {
      if Sound() {
        CutWhole(sealer, delta, line, e, |line|);
        assert line[..|line|] == line;
        assert Contents(sealer, base) + (Contents(sealer, delta) + [e]) == OnDisk() + [e];
      }
      if Stuck() {
        StaysHopeless(sealer, delta, line, e);
      }
    }

    /** The process dies with `k` bytes of the entry's line written. */
    method DieAppending(e: Entry) returns (k: nat, ghost line: Bytes)
      requires Valid() && Fits(e) && Sound()
      modifies this`delta
      ensures Valid() && IsLine(sealer, line, e) && k <= |line| && delta == old(delta) + line[..k]
      ensures k == 0 || k == |line| ==> Sound() && OnDisk() == old(OnDisk()) + Landed(line, e, k)
      ensures 0 < k < |line| && NoSplice(sealer, line[..k]) ==> Stuck() && OnDisk() == old(OnDisk())
    {
      var sealed := SealLine(e);
      line, k := sealed, *;
      if k > |sealed| {
        k := |sealed|;
      }
      if k == 0 || k == |sealed| {
        CutWhole(sealer, delta, sealed, e, k);
        assert Contents(sealer, base) + (Contents(sealer, delta) + Landed(sealed, e, k)) == OnDisk() + Landed(sealed, e, k);
      } else if NoSplice(sealer, sealed[..k]) {
        TornIsHopeless(sealer, delta, sealed, e, k);
      }
      delta := delta + sealed[..k];
    }

    method AppendAll(es: seq<Entry>)
      requires Valid() && forall e <- es :: Fits(e)
      modifies this
      ensures Valid() && base == old(base)
      ensures old(Sound()) ==> Sound() && OnDisk() == old(OnDisk()) + es
      ensures old(Stuck()) ==> Stuck() && OnDisk() == old(OnDisk())
    {
      ghost var before := OnDisk();
      assert before + es[..0] == before;
      for i := 0 to |es|
        invariant base == old(base)
        invariant old(Sound()) ==> Sound() && OnDisk() == before + es[..i]
        invariant old(Stuck()) ==> Stuck() && OnDisk() == before
      {
        OneMore(before, es, i);
        assert es[i] in es && |es[i].vector| == es[i].dim;
        var _, _ := Append(es[i]);
      }
      assert es[..|es|] == es;
    }

    /**
     * A process dies while appending, and the next one opens the files and appends more. What it
     * appended is read back exactly when there was none, or nothing or all of the first entry had been
     * written; otherwise none of it is, and the next fold empties the delta and makes the loss final.
     */
    method AppendAfterDying(e: Entry, later: seq<Entry>) returns (k: nat, ghost line: Bytes)
      requires Valid() && Sound() && Fits(e) && forall x <- later :: Fits(x)
      requires NoSplices(sealer)
      modifies this
      ensures Valid() && IsLine(sealer, line, e) && k <= |line|
      ensures OnDisk() == old(OnDisk()) + Landed(line, e, k) + later <==> later == [] || k == 0 || k == |line|
      ensures 0 < k < |line| ==> Stuck() && OnDisk() == old(OnDisk())
    {
      ghost var before := OnDisk();
      k, line := DieAppending(e);
      AppendAll(later);
      if 0 < k < |line| {
        LostBehind(before, Landed(line, e, k), later);
      }
    }

    static lemma OneMore(before: seq<Entry>, es: seq<Entry>, i: nat)
      requires i < |es|
      ensures before + es[..i + 1] == (before + es[..i]) + [es[i]]
    {
    }

    /** What did not land and nothing after it: the disk is as it was exactly when there was nothing after it. */
    static lemma LostBehind(before: seq<Entry>, landed: seq<Entry>, later: seq<Entry>)
      requires landed == []
      ensures before == before + landed + later <==> later == []
    {
      assert later == [] ==> before + landed + later == before;
      assert |before + landed + later| == |before| + |later|;
    }

    /** The vectors on disk: base first, then the delta on top, less the withdrawn ones. */
    method Hydrate() returns (live: seq<Entry>)
      requires Valid()
      ensures live == Hydrated(OnDisk())
    {
      var out: seq<Entry>, at: map<Id, nat> := [], map[];
      out, at := ReplayFile(base, out, at);
      out, at := ReplayFile(delta, out, at);
      ReplayAppend(Key, [], Contents(sealer, base), Contents(sealer, delta));
      live := DropRemoved(out);
    }

    static method DropRemoved(out: seq<Entry>) returns (live: seq<Entry>)
      ensures live == LiveOnly(out)
    {
      live := [];
      assert [] + LiveOnly(out) == LiveOnly(out) && out[0..] == out;
      for i := 0 to |out|
        invariant live + LiveOnly(out[i..]) == LiveOnly(out)
      {
        assert out[i..][1..] == out[i + 1..];
        if !Removed(out[i]) {
          assert live + ([out[i]] + LiveOnly(out[i + 1..])) == (live + [out[i]]) + LiveOnly(out[i + 1..]);
          live := live + [out[i]];
        }
      }
      assert live + [] == live;
    }

    method ReplayFile(raw: Bytes, out0: seq<Entry>, at0: map<Id, nat>) returns (out: seq<Entry>, at: map<Id, nat>)
      requires Positions(out0, at0)
      ensures Positions(out, at)
      ensures out == Replay(Key, out0, Contents(sealer, raw))
    {
      out, at := out0, at0;
      var es := ReadEntries(sealer, raw);
      for i := 0 to |es|
        invariant Positions(out, at)
        invariant Replay(Key, out, es[i..]) == Replay(Key, out0, es)
      {
        var e := es[i];
        PutPosition(out, at, e);
        assert es[i..][1..] == es[i + 1..];
        if e.id in at {
          out := out[at[e.id] := e];
        } else {
          at := at[e.id := |out|];
          out := out + [e];
        }
      }
    }

    predicate DueForCompaction()
      reads this
    {
      deltaBytes >= MIN_COMPACT_BYTES && 4 * deltaBytes > baseBytes
    }

    method WritePending(entries: seq<Entry>) returns (pending: Bytes)
      requires Valid() && forall e <- entries :: Fits(e)
      ensures Contents(sealer, pending) == entries
    {
      pending := [];
      ghost var lines: seq<Bytes> := [];
      for i := 0 to |entries|
        invariant Holds(sealer, pending, lines, entries[..i])
      {
        var line := SealLine(entries[i]);
        HoldsAppend(sealer, pending, lines, entries[..i], line, entries[i]);
        assert entries[..i + 1] == entries[..i] + [entries[i]];
        pending, lines := pending + line, lines + [line];
      }
      assert entries[..|entries|] == entries;
      WholeLines(sealer, lines, entries);
    }

    /** Installs a base of these entries, then empties the delta. */
    method Compact(entries: seq<Entry>, fault: Fault) returns (ok: bool)
      requires Valid() && forall e <- entries :: Fits(e)
      modifies this
      ensures Valid() && (ok <==> fault == NoFault)
      ensures if fault == BeforeRename then base == old(base) else Contents(sealer, base) == entries
      ensures delta == if fault == NoFault then [] else old(delta)
      ensures ok ==> baseBytes == |base| && deltaBytes == 0
      ensures ok ==> written == old(written) + |base| && compactions == old(compactions) + 1
      ensures !ok ==> baseBytes == old(baseBytes) && deltaBytes == old(deltaBytes)
      ensures !ok ==> written == old(written) && compactions == old(compactions)
    {
      var pending := WritePending(entries);
      if fault == BeforeRename {
        return false;
      }
      base := pending;
      if fault == BeforeTruncate {
        return false;
      }
      delta := [];
      baseBytes, deltaBytes := |pending|, 0;
      written := written + |pending|;
      compactions := compactions + 1;
      ok := true;
    }

    /**
     * Hydrates and writes the result back as the base. Nothing hydration returns changes; whatever lay
     * behind a cut append is gone for good, and appends are read again.
     */
    method Fold(fault: Fault) returns (ok: bool)
      requires Valid()
      modifies this
      ensures Valid() && (ok <==> fault == NoFault)
      ensures Hydrated(OnDisk()) == old(Hydrated(OnDisk()))
      ensures ok ==> delta == [] && Sound() && OnDisk() == old(Hydrated(OnDisk()))
      ensures ok ==> baseBytes == |base| && deltaBytes == 0
      ensures ok ==> written == old(written) + |base| && compactions == old(compactions) + 1
      ensures !ok ==> delta == old(delta) && baseBytes == old(baseBytes) && deltaBytes == old(deltaBytes)
      ensures !ok ==> written == old(written) && compactions == old(compactions)
      ensures (forall e :: e in OnDisk() ==> e in old(OnDisk()))
    {
      ghost var b, d := Contents(sealer, base), Contents(sealer, delta);
      var entries := Hydrate();
      HydratedFit(sealer, base, delta);
      HydratedFrom(b + d);
      FoldingIsInvisible(b, d);
      ok := Compact(entries, fault);
      assert entries + [] == entries;
    }
  }

  lemma SealedIsLine(s: Sealer, nonce: nat, e: Entry)
    requires Sealing(s) && Fits(e)
    ensures IsLine(s, Line(s, nonce, e), e)
  {
    FloatsRoundTrip(e.vector);
    Pow256Values();
    assert |EntryBody(e)| < 0x80000;
  }

  lemma HydratedFrom(disk: seq<Entry>)
    ensures forall e <- Hydrated(disk) :: e in disk
  {
    forall e <- Hydrated(disk) ensures e in disk {
      LiveMembers(Replay(Key, [], disk), e);
      ReplayMembers([], disk, e);
    }
  }

  /** What was read can be written again. */
  lemma HydratedFit(s: Sealer, base: Bytes, delta: Bytes)
    ensures forall e <- Hydrated(Contents(s, base) + Contents(s, delta)) :: Fits(e)
  {
    ContentsFit(s, base);
    ContentsFit(s, delta);
    HydratedFrom(Contents(s, base) + Contents(s, delta));
  }

  /** `at` gives the position of every id in `out`. */
  ghost predicate Positions(out: seq<Entry>, at: map<Id, nat>) {
    && (forall i :: 0 <= i < |out| ==> out[i].id in at && at[out[i].id] == i)
    && (forall id <- at :: at[id] < |out| && out[at[id]].id == id)
  }

  lemma PositionOf(out: seq<Entry>, at: map<Id, nat>, id: Id)
    requires Positions(out, at)
    ensures IndexOf(Key, out, id) == if id in at then at[id] else |out|
  {
    var i := IndexOf(Key, out, id);
    assert i < |out| ==> out[i].id == id;
  }

  lemma PutPosition(out: seq<Entry>, at: map<Id, nat>, e: Entry)
    requires Positions(out, at)
    ensures e.id in at ==> Upsert(Key, out, e) == out[at[e.id] := e] && Positions(out[at[e.id] := e], at)
    ensures e.id !in at ==> Upsert(Key, out, e) == out + [e] && Positions(out + [e], at[e.id := |out|])
  {
    PositionOf(out, at, e.id);
  }

  // ---------- what hydration returns ----------

  lemma {:induction false} LiveMembers(es: seq<Entry>, e: Entry)
    ensures e in LiveOnly(es) <==> e in es && !Removed(e)
  {
    if es != [] {
      LiveMembers(es[1..], e);
      assert e in es <==> e == es[0] || e in es[1..];
    }
  }

  lemma {:induction false} LiveAppend(a: seq<Entry>, b: seq<Entry>)
    ensures LiveOnly(a + b) == LiveOnly(a) + LiveOnly(b)
  {
    if a == [] {
      assert a + b == b;
    } else {
      assert (a + b)[1..] == a[1..] + b;
      LiveAppend(a[1..], b);
    }
  }

  lemma {:induction false} NoneLive(es: seq<Entry>)
    requires forall e <- es :: Removed(e)
    ensures LiveOnly(es) == []
  {
    if es != [] { NoneLive(es[1..]); }
  }

  lemma {:induction false} AllLive(es: seq<Entry>)
    requires forall e <- es :: !Removed(e)
    ensures LiveOnly(es) == es
  {
    if es != [] {
      AllLive(es[1..]);
      assert [es[0]] + es[1..] == es;
    }
  }

  lemma {:induction false} LiveDistinct(es: seq<Entry>)
    requires Distinct(Key, es)
    ensures Distinct(Key, LiveOnly(es))
  {
    if es != [] {
      LiveDistinct(es[1..]);
      forall j | 0 <= j < |LiveOnly(es[1..])| ensures LiveOnly(es[1..])[j].id != es[0].id {
        LiveMembers(es[1..], LiveOnly(es[1..])[j]);
        var i :| 0 <= i < |es[1..]| && es[1..][i] == LiveOnly(es[1..])[j];
        assert es[i + 1].id != es[0].id;
      }
    }
  }

  lemma MemberIsFound(es: seq<Entry>, e: Entry)
    requires Distinct(Key, es) && e in es
    ensures Find(Key, es, e.id) == Some(e)
  {
    var i :| 0 <= i < |es| && es[i] == e;
    FindAt(Key, es, i);
  }

  lemma FoundIsMember(es: seq<Entry>, k: Id)
    requires Find(Key, es, k).Some?
    ensures Find(Key, es, k).value in es && Find(Key, es, k).value.id == k
  {
  }

  /** The vector a record has: the last entry written for it, unless that withdrew it. */
  lemma HydratedFinds(disk: seq<Entry>, k: Id)
    ensures Find(Key, Hydrated(disk), k)
      == match Last(Key, disk, k) case None => None case Some(e) => if Removed(e) then None else Some(e)
  {
    var all := Replay(Key, [], disk);
    ReplayDistinct(Key, [], disk);
    ReplayFind(Key, [], disk, k);
    LiveDistinct(all);
    var found := Find(Key, Hydrated(disk), k);
    if found.Some? {
      FoundIsMember(Hydrated(disk), k);
      LiveMembers(all, found.value);
      MemberIsFound(all, found.value);
    }
    if Find(Key, all, k).Some? {
      var e := Find(Key, all, k).value;
      FoundIsMember(all, k);
      if !Removed(e) {
        LiveMembers(all, e);
        MemberIsFound(Hydrated(disk), e);
      }
    }
  }

  /** The entry at each kept position of a base rewritten under an old delta is the one it had. */
  lemma RewrittenPrefix(b: seq<Entry>, d: seq<Entry>, i: nat)
    requires i < |Hydrated(b + d)|
    ensures var live := Hydrated(b + d);
      i < |Replay(Key, live, d)| && Replay(Key, live, d)[i] == live[i]
  {
    var all, live := Replay(Key, [], b + d), Hydrated(b + d);
    var again := Replay(Key, live, d);
    var k := live[i].id;
    ReplayAppend(Key, [], b, d);
    ReplayDistinct(Key, [], b + d);
    LiveDistinct(all);
    ReplayDistinct(Key, live, d);
    ReplayKeepsKeys(Key, live, d);
    FindAt(Key, again, i);
    FindAt(Key, live, i);
    ReplayFind(Key, live, d, k);
    ReplayFind(Key, Replay(Key, [], b), d, k);
    LiveMembers(all, live[i]);
    MemberIsFound(all, live[i]);
  }

  /** Whatever the old delta adds after the rewritten base is a withdrawal. */
  lemma RewrittenSuffix(b: seq<Entry>, d: seq<Entry>, i: nat)
    requires |Hydrated(b + d)| <= i < |Replay(Key, Hydrated(b + d), d)|
    ensures Removed(Replay(Key, Hydrated(b + d), d)[i])
  {
    var all, live := Replay(Key, [], b + d), Hydrated(b + d);
    var again := Replay(Key, live, d);
    var k := again[i].id;
    ReplayAppend(Key, [], b, d);
    ReplayDistinct(Key, [], b + d);
    LiveDistinct(all);
    ReplayDistinct(Key, live, d);
    ReplayKeepsKeys(Key, live, d);
    FindAt(Key, again, i);
    ReplayFind(Key, live, d, k);
    ReplayFind(Key, Replay(Key, [], b), d, k);
    BeyondPrefix(live, again, i);
    FoundIsMember(all, k);
    LiveMembers(all, again[i]);
    NotFoundNotMember(live, again[i]);
  }

  lemma BeyondPrefix(prefix: seq<Entry>, all: seq<Entry>, i: nat)
    requires Distinct(Key, all) && |prefix| <= i < |all|
    requires forall j :: 0 <= j < |prefix| ==> all[j].id == prefix[j].id
    ensures Find(Key, prefix, all[i].id) == None
  {
    forall j | 0 <= j < |prefix| ensures Key(prefix[j]) != all[i].id {
      assert Key(all[j]) != Key(all[i]);
    }
  }

  lemma NotFoundNotMember(es: seq<Entry>, e: Entry)
    requires Find(Key, es, e.id) == None
    ensures e !in es
  {
    assert forall j :: 0 <= j < |es| ==> Key(es[j]) != e.id;
  }

  /**
   * Folding is invisible: hydrating after the new base is installed returns the identical sequence
   * whether or not the delta was emptied, although removal markers are not carried into the base.
   */
  lemma FoldingIsInvisible(b: seq<Entry>, d: seq<Entry>)
    ensures var live := Hydrated(b + d); Hydrated(live) == live && Hydrated(live + d) == live
  {
    var all, live := Replay(Key, [], b + d), Hydrated(b + d);
    ReplayDistinct(Key, [], b + d);
    LiveDistinct(all);
    assert [] + live == live;
    ReplayDistinctIsIdentity(Key, [], live);
    forall e <- live ensures !Removed(e) { LiveMembers(all, e); }
    AllLive(live);
    ReplayAppend(Key, [], live, d);
    RewrittenReplay(b, d);
  }

  lemma RewrittenReplay(b: seq<Entry>, d: seq<Entry>)
    ensures var live := Hydrated(b + d); LiveOnly(Replay(Key, live, d)) == live
  {
    var live := Hydrated(b + d);
    var again := Replay(Key, live, d);
    ReplayKeepsKeys(Key, live, d);
    forall i | 0 <= i < |live| ensures again[i] == live[i] { RewrittenPrefix(b, d, i); }
    forall i | |live| <= i < |again| ensures Removed(again[i]) { RewrittenSuffix(b, d, i); }
    forall e <- live ensures !Removed(e) { LiveMembers(Replay(Key, [], b + d), e); }
    LiveThenRemoved(live, again);
  }

  lemma LiveThenRemoved(live: seq<Entry>, again: seq<Entry>)
    requires |live| <= |again|
    requires forall e <- live :: !Removed(e)
    requires forall i :: 0 <= i < |live| ==> again[i] == live[i]
    requires forall i :: |live| <= i < |again| ==> Removed(again[i])
    ensures LiveOnly(again) == live
  {
    var removed := again[|live|..];
    assert again == live + removed;
    LiveAppend(live, removed);
    AllLive(live);
    NoneLive(removed);
    assert live + [] == live;
  }

  lemma {:induction false} LastAppend(a: seq<Entry>, b: seq<Entry>, k: Id)
    ensures Last(Key, a + b, k) == if Last(Key, b, k).Some? then Last(Key, b, k) else Last(Key, a, k)
    decreases |b|
  {
    if b == [] {
      assert a + b == a;
    } else {
      assert (a + b)[..|a + b| - 1] == a + b[..|b| - 1];
      LastAppend(a, b[..|b| - 1], k);
    }
  }

  /**
   * However the fold ended, and whatever is appended after it, a record has the vector it would have
   * had without the fold; a dropped removal marker never lets a vector return.
   */
  lemma VectorsNeverReturn(b: seq<Entry>, d: seq<Entry>, more: seq<Entry>, k: Id)
    ensures var live := Hydrated(b + d);
      && Find(Key, Hydrated(live + more), k) == Find(Key, Hydrated(b + d + more), k)
      && Find(Key, Hydrated(live + d + more), k) == Find(Key, Hydrated(b + d + more), k)
  {
    var live := Hydrated(b + d);
    FoldingIsInvisible(b, d);
    HydratedFinds(live + more, k);
    HydratedFinds(live + d + more, k);
    HydratedFinds(b + d + more, k);
    LastAppend(live, more, k);
    LastAppend(live + d, more, k);
    LastAppend(b + d, more, k);
    HydratedFinds(live, k);
    HydratedFinds(live + d, k);
    HydratedFinds(b + d, k);
  }

  lemma {:induction false} ReplayMembers(out: seq<Entry>, log: seq<Entry>, e: Entry)
    requires e in Replay(Key, out, log)
    ensures e in out || e in log
    decreases log
  {
    if log != [] {
      ReplayMembers(Upsert(Key, out, log[0]), log[1..], e);
    }
  }
}
