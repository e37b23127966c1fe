/** The durable vector store and the in-memory index kept together, across puts, forgets and folds. */
module Vectors {
  import opened Bytes
  import opened Records
  import opened KeyedLog
  import opened IndexFile
  import opened IndexStore
  import opened VectorIndex

  predicate Usable(model: Bytes, dim: nat, e: Entry) { e.model == model && e.dim == dim }

  function RowOf(e: Entry): Row { Row(e.id, e.vector) }

  function UsableRows(model: Bytes, dim: nat, stored: seq<Entry>): seq<Row> {
    if stored == [] then []
    else if Usable(model, dim, stored[0]) then [RowOf(stored[0])] + UsableRows(model, dim, stored[1..])
    else UsableRows(model, dim, stored[1..])
  }

  /** The row a search may use, given what the durable store holds for a record. */
  function UsableRow(model: Bytes, dim: nat, found: Option<Entry>): Option<Row> {
    if found.Some? && Usable(model, dim, found.value) then Some(RowOf(found.value)) else None
  }

  /** A search finds for `id` what hydrating the files would give it. */
  ghost predicate AgreeOn(model: Bytes, dim: nat, held: seq<Row>, live: seq<Entry>, id: Id) {
    Find(RowKey, held, id) == UsableRow(model, dim, Find(Key, live, id))
  }

  /** They agree on every record but these. */
  ghost predicate Agree(model: Bytes, dim: nat, held: seq<Row>, live: seq<Entry>, astray: set<Id>) {
    forall id: Id :: id !in astray ==> AgreeOn(model, dim, held, live, id)
  }

  /** Every stored vector is this model's and none was withdrawn: the rows are the files', one for one. */
  ghost predicate MirrorOf(model: Bytes, dim: nat, held: seq<Row>, disk: seq<Entry>) {
    && (forall e <- disk :: Usable(model, dim, e))
    && held == UsableRows(model, dim, Hydrated(disk))
  }

  /** A vector stored, and whether the files are in trim after it: a fold that was due can fail. */
  datatype Put = Stored(trim: bool) | Refused

  class Searchable {
    const store: Store
    const index: Index
    /**
     * Records the index and the files may differ on: forgotten since they were last put, as the index
     * has no removal, or put or forgotten while a cut append kept the files from taking anything in.
     */
    ghost var astray: set<Id>

    ghost predicate Valid()
      reads this, store, index
    {
      && store.Valid() && (store.Sound() || store.Stuck())
      && index.Valid() && index.dim > 0 && FitsLayout(index.model, index.dim)
      && Agree(index.model, index.dim, index.Held(), Hydrated(store.OnDisk()), astray)
    }

    /** The index is the files, row for row. */
    ghost predicate Mirrors()
      requires Valid()
      reads this, store, index
    {
      MirrorOf(index.model, index.dim, index.Held(), store.OnDisk())
    }

    /** Rebuilds the index from the files; a vector of another model or width is left out. */
    constructor Open(store: Store, model: Bytes, dim: nat)
      requires store.Valid() && (store.Sound() || store.Stuck()) && dim > 0 && FitsLayout(model, dim)
      ensures Valid() && this.store == store && fresh(index) && index.model == model && index.dim == dim
      ensures astray == {}
      ensures index.Held() == UsableRows(model, dim, Hydrated(store.OnDisk()))
    {
      var stored := store.Hydrate();
      var idx := new Index(model, dim);
      HydratedDistinct(store.OnDisk());
      HydratedFit(store.sealer, store.base, store.delta);
      assert forall e <- stored :: Fits(e);
      for i := 0 to |stored|
        invariant idx.Valid() && fresh(idx) && idx.model == model && idx.dim == dim
        invariant idx.Held() == UsableRows(model, dim, stored[..i])
      {
        UsableNext(model, dim, stored, i);
        assert Fits(stored[i]);
        if Usable(model, dim, stored[i]) {
          var _ := idx.Add(stored[i].id, stored[i].model, stored[i].vector);
        }
      }
      assert stored[..|stored|] == stored;
      forall id: Id ensures AgreeOn(model, dim, idx.Held(), stored, id) {
        UsableFind(model, dim, stored, id);
      }
      this.store, index, astray := store, idx, {};
    }

    /**
     * Writes the vector to the files, then to the index, then folds the files exactly when this line makes
     * the delta outgrow its base. Behind a cut append the vector reaches the index alone, and no fold
     * brings it back; but once a fold succeeds the files take in what is appended.
     */
    method PutVector(id: Id, vector: seq<Float32>, fault: Fault) returns (r: Put, ghost line: Bytes)
      requires Valid()
      modifies this, store, index
      ensures Valid()
      ensures r.Refused? <==> |vector| != index.dim
      ensures r.Refused? ==> store.OnDisk() == old(store.OnDisk()) && index.Held() == old(index.Held())
      ensures r.Stored? ==> index.Held() == Upsert(RowKey, old(index.Held()), Row(id, vector))
      ensures r.Stored? && old(store.Sound()) ==>
        Hydrated(store.OnDisk()) == Hydrated(old(store.OnDisk()) + [Entry(id, index.model, index.dim, vector)])
      ensures old(store.Stuck()) ==> Hydrated(store.OnDisk()) == Hydrated(old(store.OnDisk()))
      ensures r.Stored? && old(store.Sound()) ==> astray == old(astray) - {id}
      ensures old(store.Sound() && Mirrors()) ==> Mirrors()
      ensures r.Stored? ==> IsLine(store.sealer, line, Entry(id, index.model, index.dim, vector))
      ensures r.Stored? ==> (r.trim <==> fault == NoFault || !old(store.Outgrown(|line|)))
      ensures r.Stored? && r.trim ==> store.Trim()
      ensures r.Stored? && !old(store.Outgrown(|line|)) ==>
        store.base == old(store.base) && store.delta == old(store.delta) + line && store.compactions == old(store.compactions)
      ensures r.Stored? && old(store.Outgrown(|line|)) && fault == NoFault ==>
        store.delta == [] && store.Sound() && store.compactions == old(store.compactions) + 1
    {
      var ok;
      ok, line := Write(id, vector);
      if !ok {
        return Refused, line;
      }
      var trim := FoldIfDue(fault);
      r := Stored(trim);
    }

    method Write(id: Id, vector: seq<Float32>) returns (ok: bool, ghost line: Bytes)
      requires Valid()
      modifies this, store, index
      ensures Valid() && (ok <==> |vector| == index.dim)
      ensures ok ==> IsLine(store.sealer, line, Entry(id, index.model, index.dim, vector))
      ensures ok ==> store.base == old(store.base) && store.delta == old(store.delta) + line
      ensures ok ==> store.deltaBytes == old(store.deltaBytes) + |line| && store.baseBytes == old(store.baseBytes)
      ensures store.compactions == old(store.compactions)
      ensures ok && old(store.Sound()) ==>
        store.Sound() && store.OnDisk() == old(store.OnDisk()) + [Entry(id, index.model, index.dim, vector)]
      ensures old(store.Stuck()) || !ok ==> store.OnDisk() == old(store.OnDisk())
      ensures index.Held()
        == if ok then Upsert(RowKey, old(index.Held()), Row(id, vector)) else old(index.Held())
      ensures ok && old(store.Sound()) ==> astray == old(astray) - {id}
      ensures old(store.Sound() && Mirrors()) ==> Mirrors()
    {
      var e := Entry(id, index.model, index.dim, vector);
      ghost var disk, held, sound := store.OnDisk(), index.Held(), store.Sound();
      ok, line := store.Append(e);
      if !ok {
        return;
      }
      var added := index.Add(id, e.model, vector);
      if sound {
        PutAgrees(index.model, index.dim, held, disk, e, astray);
        PutKeepsMirror(index.model, index.dim, held, disk, e);
        astray := astray - {id};
      } else {
        PutStrays(index.model, index.dim, held, Hydrated(disk), RowOf(e), astray);
        astray := astray + {id};
      }
    }

    method FoldIfDue(fault: Fault) returns (ok: bool)
      requires Valid()
      modifies store
      ensures Valid() && Hydrated(store.OnDisk()) == old(Hydrated(store.OnDisk()))
      ensures old(Mirrors()) ==> Mirrors()
      ensures ok <==> fault == NoFault || !old(store.Outgrown(0))
      ensures !old(store.Outgrown(0)) ==>
        store.base == old(store.base) && store.delta == old(store.delta) && store.compactions == old(store.compactions)
      ensures ok ==> store.Trim()
      ensures ok && old(store.Outgrown(0)) ==>
        store.delta == [] && store.Sound() && store.compactions == old(store.compactions) + 1
    {
      ok := true;
      if store.DueForCompaction() {
        FoldUsable(index.model, index.dim, Contents(store.sealer, store.base), Contents(store.sealer, store.delta));
        ghost var disk := store.OnDisk();
        ok := store.Fold(fault);
      }
    }

    /**
     * Withdraws the vector from the files alone: a search goes on finding it until the vault is
     * reopened, and behind a cut append reopening does not withdraw it either.
     */
    method Forget(id: Id)
      requires Valid()
      modifies this, store
      ensures Valid() && astray == old(astray) + {id}
      ensures old(store.Sound()) ==> store.OnDisk() == old(store.OnDisk()) + [Removal(id)]
      ensures old(store.Stuck()) ==> store.OnDisk() == old(store.OnDisk())
      ensures old(store.Sound()) ==> Find(Key, Hydrated(store.OnDisk()), id) == None
      ensures old(store.Sound()) ==>
        (AgreeOn(index.model, index.dim, index.Held(), Hydrated(store.OnDisk()), id)
         <==> Find(RowKey, index.Held(), id) == None)
    {
      ghost var disk, sound := store.OnDisk(), store.Sound();
      var ok, _ := store.Append(Removal(id));
      if sound {
        ForgetAgrees(index.model, index.dim, index.Held(), disk, id, astray);
        AppendFinds(disk, Removal(id), id);
      }
      astray := astray + {id};
    }
  }

  /** The widths the files give a model's name and its dimensions. */
  predicate FitsLayout(model: Bytes, dim: nat) { |model| < 0x1_0000 && dim < 0x1_0000 }

  // ---------- the files ----------

  lemma HydratedDistinct(disk: seq<Entry>)
    ensures Distinct(Key, Hydrated(disk))
  {
    ReplayDistinct(Key, [], disk);
    LiveDistinct(Replay(Key, [], disk));
  }

  /** An appended entry decides its own record and no other. */
  lemma AppendFinds(disk: seq<Entry>, e: Entry, k: Id)
    ensures Find(Key, Hydrated(disk + [e]), k)
      == if k != e.id then Find(Key, Hydrated(disk), k) else if Removed(e) then None else Some(e)
  {
    HydratedFinds(disk, k);
    HydratedFinds(disk + [e], k);
    assert (disk + [e])[..|disk|] == disk;
  }

  lemma PutAgrees(model: Bytes, dim: nat, held: seq<Row>, disk: seq<Entry>, e: Entry, astray: set<Id>)
    requires dim > 0 && Usable(model, dim, e) && Agree(model, dim, held, Hydrated(disk), astray)
    ensures Agree(model, dim, Upsert(RowKey, held, RowOf(e)), Hydrated(disk + [e]), astray - {e.id})
  {
    forall k: Id
      ensures k !in astray - {e.id} ==>
        AgreeOn(model, dim, Upsert(RowKey, held, RowOf(e)), Hydrated(disk + [e]), k)
    {
      UpsertFind(RowKey, held, RowOf(e), k);
      AppendFinds(disk, e, k);
      assert k !in astray ==> AgreeOn(model, dim, held, Hydrated(disk), k);
    }
  }

  lemma PutStrays(model: Bytes, dim: nat, held: seq<Row>, live: seq<Entry>, row: Row, astray: set<Id>)
    requires Agree(model, dim, held, live, astray)
    ensures Agree(model, dim, Upsert(RowKey, held, row), live, astray + {row.id})
  {
    forall k: Id ensures k !in astray + {row.id} ==> AgreeOn(model, dim, Upsert(RowKey, held, row), live, k) {
      UpsertFind(RowKey, held, row, k);
      assert k !in astray ==> AgreeOn(model, dim, held, live, k);
    }
  }

  lemma ForgetAgrees(model: Bytes, dim: nat, held: seq<Row>, disk: seq<Entry>, id: Id, astray: set<Id>)
    requires Agree(model, dim, held, Hydrated(disk), astray)
    ensures Agree(model, dim, held, Hydrated(disk + [Removal(id)]), astray + {id})
  {
    forall k: Id
      ensures k !in astray + {id} ==> AgreeOn(model, dim, held, Hydrated(disk + [Removal(id)]), k)
    {
      AppendFinds(disk, Removal(id), k);
      assert k !in astray ==> AgreeOn(model, dim, held, Hydrated(disk), k);
    }
  }

  // ---------- rows and entries in step ----------

  lemma {:induction false} UsableAppend(model: Bytes, dim: nat, a: seq<Entry>, b: seq<Entry>)
    ensures UsableRows(model, dim, a + b) == UsableRows(model, dim, a) + UsableRows(model, dim, b)
  {
    if a == [] {
      assert a + b == b;
    } else {
      assert (a + b)[1..] == a[1..] + b;
      UsableAppend(model, dim, a[1..], b);
    }
  }

  lemma {:induction false} UsableMembers(model: Bytes, dim: nat, stored: seq<Entry>, r: Row)
    requires r in UsableRows(model, dim, stored)
    ensures exists e <- stored :: Usable(model, dim, e) && RowOf(e) == r
  {
    if !(Usable(model, dim, stored[0]) && r == RowOf(stored[0])) {
      UsableMembers(model, dim, stored[1..], r);
      var e :| e in stored[1..] && Usable(model, dim, e) && RowOf(e) == r;
      assert e in stored;
    }
  }

  lemma UsableNext(model: Bytes, dim: nat, stored: seq<Entry>, i: nat)
    requires i < |stored| && Distinct(Key, stored)
    ensures UsableRows(model, dim, stored[..i + 1])
      == if Usable(model, dim, stored[i]) then Upsert(RowKey, UsableRows(model, dim, stored[..i]), RowOf(stored[i]))
         else UsableRows(model, dim, stored[..i])
  {
    var e, before := stored[i], UsableRows(model, dim, stored[..i]);
    assert stored[..i + 1] == stored[..i] + [e];
    UsableAppend(model, dim, stored[..i], [e]);
    assert [e][1..] == [];
    forall n | 0 <= n < |before| ensures RowKey(before[n]) != e.id {
      UsableMembers(model, dim, stored[..i], before[n]);
      var other :| other in stored[..i] && RowOf(other) == before[n];
      var j :| 0 <= j < i && stored[..i][j] == other;
      assert Key(stored[j]) != Key(stored[i]);
    }
  }

  lemma {:induction false} UsableFind(model: Bytes, dim: nat, stored: seq<Entry>, k: Id)
    requires Distinct(Key, stored)
    ensures Find(RowKey, UsableRows(model, dim, stored), k) == UsableRow(model, dim, Find(Key, stored, k))
  {
    var rows := UsableRows(model, dim, stored);
    if stored != [] {
      UsableFind(model, dim, stored[1..], k);
      if stored[0].id == k {
        AbsentLater(stored);
      }
      assert Usable(model, dim, stored[0]) ==> rows[1..] == UsableRows(model, dim, stored[1..]);
    }
  }

  lemma AbsentLater(stored: seq<Entry>)
    requires stored != [] && Distinct(Key, stored)
    ensures Find(Key, stored[1..], stored[0].id) == None
  {
    var i := IndexOf(Key, stored[1..], stored[0].id);
    assert i < |stored[1..]| ==> Key(stored[i + 1]) == Key(stored[0]);
  }

  lemma {:induction false} AllUsable(model: Bytes, dim: nat, stored: seq<Entry>)
    requires forall e <- stored :: Usable(model, dim, e)
    ensures |UsableRows(model, dim, stored)| == |stored|
    ensures forall i :: 0 <= i < |stored| ==> UsableRows(model, dim, stored)[i] == RowOf(stored[i])
  {
    if stored != [] { AllUsable(model, dim, stored[1..]); }
  }

  lemma SameIndex(model: Bytes, dim: nat, stored: seq<Entry>, k: Id)
    requires forall e <- stored :: Usable(model, dim, e)
    ensures IndexOf(RowKey, UsableRows(model, dim, stored), k) == IndexOf(Key, stored, k)
  {
    AllUsable(model, dim, stored);
    var rows := UsableRows(model, dim, stored);
    var i, j := IndexOf(RowKey, rows, k), IndexOf(Key, stored, k);
    assert i < |rows| ==> Key(stored[i]) == k;
    assert j < |stored| ==> RowKey(rows[j]) == k;
  }

  lemma ReplayUsable(model: Bytes, dim: nat, disk: seq<Entry>)
    requires dim > 0 && forall e <- disk :: Usable(model, dim, e)
    ensures Hydrated(disk) == Replay(Key, [], disk)
    ensures forall e <- Hydrated(disk) :: Usable(model, dim, e)
  {
    var all := Replay(Key, [], disk);
    forall e <- all ensures Usable(model, dim, e) {
      ReplayMembers([], disk, e);
    }
    AllLive(all);
  }

  /** A put does to the rows what the appended entry does to what hydration returns, position and all. */
  lemma PutMirrors(model: Bytes, dim: nat, disk: seq<Entry>, e: Entry)
    requires dim > 0 && Usable(model, dim, e)
    ensures (forall x <- disk :: Usable(model, dim, x)) ==>
      UsableRows(model, dim, Hydrated(disk + [e]))
      == Upsert(RowKey, UsableRows(model, dim, Hydrated(disk)), RowOf(e))
  {
    if x :| x in disk && !Usable(model, dim, x) {
      return;
    }
    ReplayUsable(model, dim, disk);
    ReplayUsable(model, dim, disk + [e]);
    ReplayOne(Key, [], disk, e);
    var before := Hydrated(disk);
    SameIndex(model, dim, before, e.id);
    AllUsable(model, dim, before);
    AllUsable(model, dim, Upsert(Key, before, e));
  }

  lemma PutKeepsMirror(model: Bytes, dim: nat, held: seq<Row>, disk: seq<Entry>, e: Entry)
    requires dim > 0 && Usable(model, dim, e)
    ensures MirrorOf(model, dim, held, disk) ==> MirrorOf(model, dim, Upsert(RowKey, held, RowOf(e)), disk + [e])
  {
    PutMirrors(model, dim, disk, e);
  }

  lemma FoldUsable(model: Bytes, dim: nat, b: seq<Entry>, d: seq<Entry>)
    requires dim > 0
    ensures (forall e <- b + d :: Usable(model, dim, e)) ==> (forall e <- Hydrated(b + d) :: Usable(model, dim, e))
  {
    if forall e <- b + d :: Usable(model, dim, e) {
      ReplayUsable(model, dim, b + d);
    }
  }
}
