/** Records entering and leaving the vault: flushing, forgetting, hydrating, and reading one back. */
module VaultRecords {
  import opened Bytes
  import opened Records
  import opened World
  import opened Ledger
  import opened Sweeping
  import opened Vault
  import opened Reclaim
  import opened Queue
  import opened Locations
  import Envelope
  import Reachability

  // ---------- pairing what was written with what was queued ----------

  /** The objects a flush reports, by content id; a later object takes the place of an earlier one. */
  function ByCid(cids: seq<Bytes>, written: seq<Written>): map<Bytes, Written>
    requires |cids| == |written|
    decreases |cids|
  {
    if cids == [] then map[]
    else ByCid(cids[..|cids| - 1], written[..|cids| - 1])[cids[|cids| - 1] := written[|cids| - 1]]
  }

  lemma {:induction false} PairedAt(cids: seq<Bytes>, written: seq<Written>, i: nat)
    requires |cids| == |written| && i < |cids| && forall j :: i < j < |cids| ==> cids[j] != cids[i]
    ensures cids[i] in ByCid(cids, written) && ByCid(cids, written)[cids[i]] == written[i]
    decreases |cids|
  {
    if i < |cids| - 1 {
      PairedAt(cids[..|cids| - 1], written[..|cids| - 1], i);
    }
  }

  lemma LastOf(cids: seq<Bytes>, i: nat) returns (j: nat)
    requires i < |cids|
    ensures i <= j < |cids| && cids[j] == cids[i] && forall k :: j < k < |cids| ==> cids[k] != cids[i]
  {
    j := |cids| - 1;
    while cids[j] != cids[i]
      invariant i <= j < |cids| && forall k :: j < k < |cids| ==> cids[k] != cids[i]
      decreases j
    {
      j := j - 1;
    }
  }

  /** Each content id is paired with the object written under it. */
  ghost predicate AllPaired(cids: seq<Bytes>, written: seq<Written>, byCid: map<Bytes, Written>)
    requires |cids| == |written|
  {
    forall i {:trigger cids[i]} | 0 <= i < |cids| :: cids[i] in byCid && byCid[cids[i]] == written[i]
  }

  /** Pairing by content id gives every queued record its own object exactly when no two share one. */
  lemma PairsExactly(cids: seq<Bytes>, written: seq<Written>)
    requires |cids| == |written| && AllDiffer(written)
    ensures AllPaired(cids, written, ByCid(cids, written)) <==> AllDiffer(cids)
  {
    if AllDiffer(cids) {
      forall i | 0 <= i < |cids| ensures cids[i] in ByCid(cids, written) && ByCid(cids, written)[cids[i]] == written[i] {
        PairedAt(cids, written, i);
      }
    } else {
      var i, j :| 0 <= i < j < |cids| && cids[i] == cids[j];
      var last := LastOf(cids, j);
      PairedAt(cids, written, last);
      assert written[last] != written[i];
    }
  }

  method PairUp(cids: seq<Bytes>, written: seq<Written>) returns (byCid: map<Bytes, Written>)
    requires |cids| == |written|
    ensures byCid == ByCid(cids, written)
  {
    byCid := map[];
    for i := 0 to |cids|
      invariant byCid == ByCid(cids[..i], written[..i])
    {
      assert cids[..i + 1][..i] == cids[..i] && written[..i + 1][..i] == written[..i];
      byCid := byCid[cids[i] := written[i]];
    }
    assert cids[..|cids|] == cids && written[..|written|] == written;
  }

  // ---------- flushing ----------

  function CidsOf(batch: seq<Blob>): (cids: seq<Bytes>)
    ensures |cids| == |batch| && forall i :: 0 <= i < |batch| ==> cids[i] == batch[i].cid
  {
    seq(|batch|, i requires 0 <= i < |batch| => batch[i].cid)
  }

  function PayloadsOf(batch: seq<Blob>): (payloads: seq<Bytes>)
    ensures |payloads| == |batch| && forall i :: 0 <= i < |batch| ==> payloads[i] == batch[i].payload
  {
    seq(|batch|, i requires 0 <= i < |batch| => batch[i].payload)
  }

  /** The record is catalogued at an object written since `a`, on one of these slabs. */
  ghost predicate CataloguedOn(a: State, w: State, slabs: set<SlabId>, id: Id) {
    id in w.catalog && w.catalog[id].ref !in a.placed && w.catalog[id].slab in slabs
  }

  /** The record is catalogued at an object written since `a`, on a slab this device may release. */
  ghost predicate Landed(a: State, w: State, id: Id) {
    id in w.catalog && w.catalog[id].ref !in a.placed && Owned(w, w.catalog[id].slab)
  }

  /** No body, no cached location, and no entry but these records' own, has changed. */
  ghost predicate SameButFor(a: State, w: State, ids: set<Id>) {
    && a.bodies == w.bodies && a.cache == w.cache && a.catalog.Keys <= w.catalog.Keys
    && w.catalog - ids == a.catalog - ids
  }

  ghost predicate Untouched(a: State, w: State, batch: seq<Blob>) { SameButFor(a, w, IdsIn(batch)) }

  ghost predicate Written1(env: Env, a: State, w: State, q: Blob, x: Written) {
    Own(env, q) && x.ref !in a.placed && Readable(w, x.ref) && w.placed[x.ref] == Placement(x.slab, q.payload)
  }

  /** Catalogues one written record; what was catalogued before it stays. */
  method Record(d: Device, batch: seq<Blob>, q: Blob, x: Written, n: nat,
                ghost a: State, ghost w: State, ghost b: Bounds, ghost slabs: set<SlabId>) returns (ok: bool)
    requires d.Valid() && Trace(d.passed, n, a, b) && Within(b, a, d.world)
    requires Written1(d.env, a, w, q, x) && q in batch && x.slab in slabs
    requires d.world == w.(catalog := d.world.catalog) && Untouched(a, d.world, batch) && !b.homed
    modifies d
    ensures d.Valid() && Trace(d.passed, n, a, b) && Within(b, a, d.world) && old(d.passed) <= d.passed
    ensures d.world == w.(catalog := d.world.catalog) && Untouched(a, d.world, batch)
    ensures ok ==> CataloguedOn(a, d.world, slabs, q.id)
    ensures d.steady ==> ok
    ensures forall id {:trigger CataloguedOn(a, d.world, slabs, id)} | CataloguedOn(a, old(d.world), slabs, id) ::
      CataloguedOn(a, d.world, slabs, id)
  {
    ghost var before := d.world;
    WrittenIsStored(d.env, a, w, before, q, x);
    ok := d.Catalog(Entry(q.id, q.kind, q.cid, x.ref, x.slab), n, a, b);
    RecordedKeeps(a, before, d.world, batch, slabs, Entry(q.id, q.kind, q.cid, x.ref, x.slab));
  }

  lemma WrittenIsStored(env: Env, a: State, w: State, now: State, q: Blob, x: Written)
    requires Written1(env, a, w, q, x) && now == w.(catalog := now.catalog)
    ensures Stored(env, now, Entry(q.id, q.kind, q.cid, x.ref, x.slab))
  {
  }

  lemma RecordedKeeps(a: State, before: State, next: State, batch: seq<Blob>, slabs: set<SlabId>, e: Entry)
    requires Untouched(a, before, batch) && e.id in IdsIn(batch) && e.ref !in a.placed && e.slab in slabs
    requires next == before || next == before.(catalog := before.catalog[e.id := e])
    ensures Untouched(a, next, batch)
    ensures forall id {:trigger CataloguedOn(a, next, slabs, id)} | CataloguedOn(a, before, slabs, id) ::
      CataloguedOn(a, next, slabs, id)
  {
    assert next.catalog - IdsIn(batch) == before.catalog - IdsIn(batch);
  }

  /** Each record of the batch was written to its own object. */
  ghost predicate AllWritten(env: Env, a: State, w: State, batch: seq<Blob>, written: seq<Written>)
    requires |written| == |batch|
  {
    forall i {:trigger Written1(env, a, w, batch[i], written[i])} | 0 <= i < |batch| ::
      Written1(env, a, w, batch[i], written[i])
  }

  ghost predicate AllCatalogued(a: State, w: State, slabs: set<SlabId>, batch: seq<Blob>, n: nat)
    requires n <= |batch|
  {
    forall i {:trigger CataloguedOn(a, w, slabs, batch[i].id)} | 0 <= i < n :: CataloguedOn(a, w, slabs, batch[i].id)
  }

  lemma AllLanded(a: State, w: State, slabs: set<SlabId>, batch: seq<Blob>, next: State)
    requires AllCatalogued(a, w, slabs, batch, |batch|) && next.catalog == w.catalog
    requires forall s <- slabs :: Owned(next, s)
    ensures forall q <- batch :: Landed(a, next, q.id)
  {
    forall q <- batch ensures Landed(a, next, q.id) {
      var i :| 0 <= i < |batch| && batch[i] == q;
      assert CataloguedOn(a, w, slabs, batch[i].id);
    }
  }

  /** Catalogues record `i`, and keeps those before it. */
  method CatalogNext(d: Device, batch: seq<Blob>, i: nat, x: Written, n: nat,
                     ghost a: State, ghost w: State, ghost b: Bounds, ghost slabs: set<SlabId>) returns (ok: bool)
    requires d.Valid() && Trace(d.passed, n, a, b) && Within(b, a, d.world)
    requires i < |batch| && Written1(d.env, a, w, batch[i], x) && x.slab in slabs && !b.homed
    requires d.world == w.(catalog := d.world.catalog) && Untouched(a, d.world, batch)
    requires AllCatalogued(a, d.world, slabs, batch, i)
    modifies d
    ensures d.Valid() && Trace(d.passed, n, a, b) && Within(b, a, d.world) && old(d.passed) <= d.passed
    ensures d.world == w.(catalog := d.world.catalog) && Untouched(a, d.world, batch)
    ensures ok ==> AllCatalogued(a, d.world, slabs, batch, i + 1)
    ensures d.steady ==> ok
  {
    ghost var before := d.world;
    ok := Record(d, batch, batch[i], x, n, a, w, b, slabs);
    if ok {
      forall j | 0 <= j < i + 1 ensures CataloguedOn(a, d.world, slabs, batch[j].id) {
        assert j < i ==> CataloguedOn(a, before, slabs, batch[j].id);
      }
    }
  }

  method Pairing(batch: seq<Blob>, written: seq<Written>) returns (byCid: map<Bytes, Written>)
    requires |written| == |batch| && AllDiffer(CidsOf(batch)) && AllDiffer(written)
    ensures AllPaired(CidsOf(batch), written, byCid)
  {
    byCid := PairUp(CidsOf(batch), written);
    PairsExactly(CidsOf(batch), written);
  }

  /** The catalog entries, each naming the object written for that record. */
  method CatalogAll(d: Device, batch: seq<Blob>, written: seq<Written>, byCid: map<Bytes, Written>,
                    n: nat, ghost a: State, ghost w: State, ghost b: Bounds) returns (ok: bool)
    requires d.Valid() && Trace(d.passed, n, a, b) && Within(b, a, d.world)
    requires |written| == |batch| && AllPaired(CidsOf(batch), written, byCid) && !b.homed
    requires AllWritten(d.env, a, w, batch, written)
    requires d.world == w && Untouched(a, w, batch)
    modifies d
    ensures d.Valid() && Trace(d.passed, n, a, b) && Within(b, a, d.world) && old(d.passed) <= d.passed
    ensures d.world == w.(catalog := d.world.catalog) && Untouched(a, d.world, batch)
    ensures ok ==> AllCatalogued(a, d.world, SlabsWritten(written), batch, |batch|)
    ensures d.steady ==> ok
  {
    ok := true;
    for i := 0 to |batch|
      invariant d.Valid() && Trace(d.passed, n, a, b) && Within(b, a, d.world) && old(d.passed) <= d.passed
      invariant d.world == w.(catalog := d.world.catalog) && Untouched(a, d.world, batch)
      invariant ok && AllCatalogued(a, d.world, SlabsWritten(written), batch, i)
    {
      OwnWritten(d.env, a, w, batch, written, byCid, i);
      ok := CatalogNext(d, batch, i, byCid[batch[i].cid], n, a, w, b, SlabsWritten(written));
      if !ok {
        return;
      }
    }
  }

  lemma OwnWritten(env: Env, a: State, w: State, batch: seq<Blob>, written: seq<Written>,
                   byCid: map<Bytes, Written>, i: nat)
    requires |written| == |batch| && i < |batch| && AllWritten(env, a, w, batch, written)
    requires AllPaired(CidsOf(batch), written, byCid)
    ensures var q := batch[i];
      q in batch && q.cid in byCid && Written1(env, a, w, q, byCid[q.cid]) && byCid[q.cid].slab in SlabsWritten(written)
  {
    assert CidsOf(batch)[i] == batch[i].cid;
    assert Written1(env, a, w, batch[i], written[i]);
    assert written[i] in written;
  }

  /** No slab has left the ledger, and none has changed but to be filed as pinned here. */
  ghost predicate Promoted(before: map<SlabId, Origin>, after: map<SlabId, Origin>) {
    forall s <- before :: s in after && (after[s] == before[s] || after[s] == Pinned)
  }

  /** Catalogues what a flush wrote, then files its slabs in the ledger. */
  method RecordFlush(d: Device, batch: seq<Blob>, written: seq<Written>,
                     n: nat, ghost a: State, ghost w: State, ghost b: Bounds) returns (ok: bool)
    requires d.Valid() && Trace(d.passed, n, a, b) && Within(b, a, d.world)
    requires |written| == |batch| && AllDiffer(CidsOf(batch)) && AllDiffer(written) && !b.homed
    requires AllWritten(d.env, a, w, batch, written)
    requires d.world == w && Untouched(a, w, batch)
    modifies d
    ensures d.Valid() && Trace(d.passed, n, a, b) && Within(b, a, d.world) && old(d.passed) <= d.passed
    ensures d.world == w.(catalog := d.world.catalog, ledger := d.world.ledger) && Untouched(a, d.world, batch)
    ensures ok ==> forall q <- batch :: Landed(a, d.world, q.id)
    ensures ok ==> d.world.ledger == Filed(w.ledger, SlabsWritten(written))
    ensures Promoted(w.ledger, d.world.ledger)
    ensures d.steady ==> ok
  {
    var byCid := Pairing(batch, written);
    ok := CatalogAll(d, batch, written, byCid, n, a, w, b);
    if !ok {
      return;
    }
    ghost var catalogued := d.world;
    ok := d.FileAll(SlabsWritten(written), n, a, b);
    if ok {
      AllLanded(a, catalogued, SlabsWritten(written), batch, d.world);
    }
  }

  lemma BatchWritten(env: Env, a: State, w: State, batch: seq<Blob>, written: seq<Written>)
    requires |written| == |batch| && Placed(a, w, written, PayloadsOf(batch))
    requires forall q <- batch :: Own(env, q)
    requires forall x <- written :: Readable(w, x.ref)
    ensures AllWritten(env, a, w, batch, written) && AllDiffer(written)
  {
    forall i | 0 <= i < |batch| ensures Written1(env, a, w, batch[i], written[i]) {
      assert written[i] in written && batch[i] in batch;
    }
  }

  lemma OwnPayloads(env: Env, batch: seq<Blob>)
    requires Sound(env) && forall q <- batch :: Own(env, q)
    ensures forall p <- PayloadsOf(batch) :: Genuine(env, p)
  {
    forall p <- PayloadsOf(batch) ensures Genuine(env, p) {
      var i :| 0 <= i < |batch| && PayloadsOf(batch)[i] == p;
      assert batch[i] in batch;
    }
  }

  // ---------- forgetting ----------

  /**
   * Drops a record from the catalog and this device's copy of it; the object stays where it is. A
   * record the catalog does not hold, such as one still queued, is an error and nothing changes.
   */
  method Forget(d: Device, id: Id) returns (ok: bool)
    requires d.Valid()
    modifies d
    ensures d.Valid() && old(d.passed) <= d.passed
    ensures Trace(d.passed, old(|d.passed|), old(d.world), Bounds({id}, {}, {}, {}))
    ensures d.world == old(d.world).(catalog := d.world.catalog, bodies := d.world.bodies)
    ensures d.world.catalog - {id} == old(d.world).catalog - {id}
    ensures ok ==> id in old(d.world).catalog && id !in d.world.catalog && d.world.bodies == old(d.world).bodies - {id}
    ensures id !in old(d.world).catalog ==> d.world == old(d.world)
    ensures d.world.bodies == old(d.world).bodies || (id !in d.world.catalog && d.world.bodies == old(d.world).bodies - {id})
    ensures d.steady ==> (ok <==> id in old(d.world).catalog)
  {
    if id !in d.world.catalog {
      return false;
    }
    ghost var a := d.world;
    ghost var b := Bounds({id}, {}, {}, {});
    var n := |d.passed|;
    Itself(b, a);
    ForgottenSafe(d.env, d.world, id);
    ok := d.WriteLocal(d.world.(catalog := d.world.catalog - {id}), n, a, b);
    if !ok {
      return;
    }
    ok := DropBody(d, id, n, a, b);
  }

  method DropBody(d: Device, id: Id, n: nat, ghost a: State, ghost b: Bounds) returns (ok: bool)
    requires d.Valid() && Trace(d.passed, n, a, b) && Within(b, a, d.world)
    modifies d
    ensures d.Valid() && Trace(d.passed, n, a, b) && Within(b, a, d.world) && old(d.passed) <= d.passed
    ensures d.world == old(d.world) || d.world == old(d.world).(bodies := old(d.world).bodies - {id})
    ensures ok ==> d.world == old(d.world).(bodies := old(d.world).bodies - {id})
    ensures d.steady ==> ok
  {
    ForgottenSafe(d.env, d.world, id);
    ok := d.WriteLocal(d.world.(bodies := d.world.bodies - {id}), n, a, b);
  }

  // ---------- hydrating ----------

  /** The entry a listed object hydrates to; none when it does not open as one of this vault's records. */
  function EntryFor(env: Env, placed: map<Ref, Placement>, o: Listed): Option<Entry> {
    if o.ref !in placed then None else
      var found :- env.recover(placed[o.ref].payload);
      Some(Entry(found.id, found.kind, env.cid(found.body), o.ref, o.slab))
  }

  function Put(catalog: map<Id, Entry>, e: Option<Entry>): map<Id, Entry> {
    if e.None? then catalog else catalog[e.value.id := e.value]
  }

  /** The catalog after these objects are hydrated in this order. */
  function Restored(env: Env, placed: map<Ref, Placement>, objects: seq<Listed>, catalog: map<Id, Entry>)
    : map<Id, Entry>
    decreases |objects|
  {
    if objects == [] then catalog
    else Put(Restored(env, placed, objects[..|objects| - 1], catalog), EntryFor(env, placed, objects[|objects| - 1]))
  }

  /** What hydrating this entry leaves of the ledger and the bodies: the slab sighted, the body held. */
  ghost predicate TakenIn(env: Env, before: State, w: State, e: Option<Entry>) {
    if e.None? then w == before
    else w == before.(catalog := before.catalog[e.value.id := e.value],
                      ledger := TrackedWith(before.ledger, e.value.slab, Hydrated),
                      bodies := before.bodies[e.value.id := env.truth(e.value.id)])
  }

  /** Catalogues a readable object that opens as one of this vault's records, and adopts its slab. */
  method HydrateObject(d: Device, o: Listed, up: bool, n: nat, ghost a: State, ghost b: Bounds) returns (ok: bool)
    requires d.Valid() && Trace(d.passed, n, a, b) && Within(b, a, d.world) && !b.homed
    requires Readable(d.world, o.ref) && o.slab == d.world.placed[o.ref].slab
    modifies d
    ensures d.Valid() && Trace(d.passed, n, a, b) && Within(b, a, d.world) && old(d.passed) <= d.passed
    ensures d.world == old(d.world).(catalog := d.world.catalog, ledger := d.world.ledger, bodies := d.world.bodies)
    ensures SameOwnership(old(d.world).ledger, d.world.ledger)
    ensures ok ==> TakenIn(d.env, old(d.world), d.world, EntryFor(d.env, d.world.placed, o))
    ensures d.steady && up ==> ok
  {
    var payload := d.Download(o.ref, up);
    if payload.None? {
      return false;
    }
    var found := d.env.recover(payload.value);
    if found.None? {
      return true;
    }
    var e := Entry(found.value.id, found.value.kind, d.env.cid(found.value.body), o.ref, o.slab);
    FoundIsStored(d.env, d.world, o, found.value);
    ok := HydrateEntry(d, e, Body(found.value.kind, found.value.body), n, a, b);
  }

  /** Files what an object opened as: the catalog entry, the slab as one only sighted, and the body. */
  method HydrateEntry(d: Device, e: Entry, body: Body, n: nat, ghost a: State, ghost b: Bounds) returns (ok: bool)
    requires d.Valid() && Trace(d.passed, n, a, b) && Within(b, a, d.world) && !b.homed
    requires Stored(d.env, d.world, e) && body == d.env.truth(e.id)
    modifies d
    ensures d.Valid() && Trace(d.passed, n, a, b) && Within(b, a, d.world) && old(d.passed) <= d.passed
    ensures d.world == old(d.world).(catalog := d.world.catalog, ledger := d.world.ledger, bodies := d.world.bodies)
    ensures SameOwnership(old(d.world).ledger, d.world.ledger)
    ensures ok ==> TakenIn(d.env, old(d.world), d.world, Some(e))
    ensures d.steady ==> ok
  {
    ok := d.Catalog(e, n, a, b);
    if ok {
      ok := AdoptAndHold(d, e.slab, e.id, body, n, a, b);
    }
  }

  lemma FoundIsStored(env: Env, w: State, o: Listed, found: Found)
    requires Sound(env) && Safe(env, w) && Readable(w, o.ref) && o.slab == w.placed[o.ref].slab
    requires env.recover(w.placed[o.ref].payload) == Some(found)
    ensures Stored(env, w, Entry(found.id, found.kind, env.cid(found.body), o.ref, o.slab))
    ensures Body(found.kind, found.body) == env.truth(found.id)
  {
    assert env.recover(env.payload(found.id)) == Some(found);
  }

  method AdoptAndHold(d: Device, slab: SlabId, id: Id, body: Body, n: nat, ghost a: State, ghost b: Bounds)
    returns (ok: bool)
    requires d.Valid() && Trace(d.passed, n, a, b) && Within(b, a, d.world) && body == d.env.truth(id)
    modifies d
    ensures d.Valid() && Trace(d.passed, n, a, b) && Within(b, a, d.world) && old(d.passed) <= d.passed
    ensures d.world == old(d.world).(ledger := d.world.ledger, bodies := d.world.bodies)
    ensures SameOwnership(old(d.world).ledger, d.world.ledger)
    ensures ok ==> d.world == old(d.world).(ledger := TrackedWith(old(d.world).ledger, slab, Hydrated),
                                            bodies := old(d.world).bodies[id := body])
    ensures d.steady ==> ok
  {
    ok := Adopt(d, slab, n, a, b);
    if ok {
      ok := HoldBody(d, id, body, n, a, b);
    }
  }

  /** Files a slab as one another installation pinned. */
  method Adopt(d: Device, slab: SlabId, n: nat, ghost a: State, ghost b: Bounds) returns (ok: bool)
    requires d.Valid() && Trace(d.passed, n, a, b) && Within(b, a, d.world)
    modifies d
    ensures d.Valid() && Trace(d.passed, n, a, b) && Within(b, a, d.world) && old(d.passed) <= d.passed
    ensures d.world == old(d.world).(ledger := d.world.ledger) && SameOwnership(old(d.world).ledger, d.world.ledger)
    ensures ok ==> d.world.ledger == TrackedWith(old(d.world).ledger, slab, Hydrated)
    ensures d.steady ==> ok
  {
    SightingOwnsNothing(d.world.ledger, slab);
    ok := d.File(slab, Hydrated, n, a, b);
  }

  lemma SightingOwnsNothing(ledger: map<SlabId, Origin>, slab: SlabId)
    ensures SameOwnership(ledger, TrackedWith(ledger, slab, Hydrated))
  {
  }

  method HoldBody(d: Device, id: Id, body: Body, n: nat, ghost a: State, ghost b: Bounds) returns (ok: bool)
    requires d.Valid() && Trace(d.passed, n, a, b) && Within(b, a, d.world) && body == d.env.truth(id)
    modifies d
    ensures d.Valid() && Trace(d.passed, n, a, b) && Within(b, a, d.world) && old(d.passed) <= d.passed
    ensures d.world == old(d.world).(bodies := d.world.bodies)
    ensures d.world.bodies == old(d.world).bodies || d.world.bodies == old(d.world).bodies[id := body]
    ensures ok ==> d.world.bodies == old(d.world).bodies[id := body]
    ensures d.steady ==> ok
  {
    HeldSafe(d.env, d.world, id);
    ok := d.WriteLocal(d.world.(bodies := d.world.bodies[id := body]), n, a, b);
  }

  /** Sightings never change which slabs this device may release. */
  ghost predicate SameOwnership(before: map<SlabId, Origin>, after: map<SlabId, Origin>) {
    forall s :: (s in after && Releasable(after[s])) <==> (s in before && Releasable(before[s]))
  }

  /** The slabs listed after these objects are hydrated: each that holds an object that opens is sighted. */
  function Sighted(env: Env, placed: map<Ref, Placement>, objects: seq<Listed>, slabs: set<SlabId>): set<SlabId>
    decreases |objects|
  {
    if objects == [] then slabs
    else
      var e := EntryFor(env, placed, objects[|objects| - 1]);
      Sighted(env, placed, objects[..|objects| - 1], slabs) + if e.Some? then {e.value.slab} else {}
  }

  /** The records held after these objects are hydrated. */
  function HeldAfter(env: Env, placed: map<Ref, Placement>, objects: seq<Listed>, ids: set<Id>): set<Id>
    decreases |objects|
  {
    if objects == [] then ids
    else
      var e := EntryFor(env, placed, objects[|objects| - 1]);
      HeldAfter(env, placed, objects[..|objects| - 1], ids) + if e.Some? then {e.value.id} else {}
  }

  /** A slab comes to be listed, and a record to be held, exactly when some object that opens says so. */
  lemma {:induction false} HydratedExactly(env: Env, placed: map<Ref, Placement>, objects: seq<Listed>,
                                           slabs: set<SlabId>, ids: set<Id>, s: SlabId, id: Id)
    ensures s in Sighted(env, placed, objects, slabs)
      <==> s in slabs || exists o <- objects :: EntryFor(env, placed, o).Some? && o.slab == s
    ensures id in HeldAfter(env, placed, objects, ids)
      <==> id in ids || exists o <- objects :: EntryFor(env, placed, o).Some? && EntryFor(env, placed, o).value.id == id
    decreases |objects|
  {
    if objects != [] {
      var front, last := objects[..|objects| - 1], objects[|objects| - 1];
      HydratedExactly(env, placed, front, slabs, ids, s, id);
      assert objects == front + [last];
      assert last in objects && forall o <- front :: o in objects;
    }
  }

  /** What hydrating these objects has made of the catalog, of the slabs listed and of the bodies held. */
  ghost predicate HydratedFrom(env: Env, a: State, w: State, objects: seq<Listed>) {
    && w.catalog == Restored(env, a.placed, objects, a.catalog)
    && w.ledger.Keys == Sighted(env, a.placed, objects, a.ledger.Keys)
    && w.bodies.Keys == HeldAfter(env, a.placed, objects, a.bodies.Keys)
  }

  lemma TakenKeys(env: Env, before: State, w: State, e: Option<Entry>)
    requires TakenIn(env, before, w, e)
    ensures w.catalog == Put(before.catalog, e)
    ensures w.ledger.Keys == before.ledger.Keys + if e.Some? then {e.value.slab} else {}
    ensures w.bodies.Keys == before.bodies.Keys + if e.Some? then {e.value.id} else {}
  {
  }

  lemma HydratedNext(env: Env, a: State, w: State, next: State, objects: seq<Listed>, i: nat)
    requires i < |objects| && HydratedFrom(env, a, w, objects[..i])
    requires TakenIn(env, w, next, EntryFor(env, a.placed, objects[i]))
    ensures HydratedFrom(env, a, next, objects[..i + 1])
  {
    TakenKeys(env, w, next, EntryFor(env, a.placed, objects[i]));
    assert objects[..i + 1][..i] == objects[..i];
  }

  /** Only what hydrating fills in may have changed, and nothing more may be released. */
  ghost predicate OnlyFilled(a: State, w: State) {
    w == a.(catalog := w.catalog, ledger := w.ledger, bodies := w.bodies) && SameOwnership(a.ledger, w.ledger)
  }

  method HydrateNext(d: Device, objects: seq<Listed>, i: nat, up: bool, n: nat, ghost a: State) returns (ok: bool)
    requires d.Valid() && Trace(d.passed, n, a, NOTHING) && Within(NOTHING, a, d.world) && i < |objects|
    requires OnlyFilled(a, d.world) && HydratedFrom(d.env, a, d.world, objects[..i])
    requires forall o <- objects :: Readable(a, o.ref) && o.slab == a.placed[o.ref].slab
    modifies d
    ensures d.Valid() && Trace(d.passed, n, a, NOTHING) && Within(NOTHING, a, d.world) && old(d.passed) <= d.passed
    ensures OnlyFilled(a, d.world) && (ok ==> HydratedFrom(d.env, a, d.world, objects[..i + 1]))
    ensures d.steady && up ==> ok
  {
    ghost var w := d.world;
    assert objects[i] in objects;
    ok := HydrateObject(d, objects[i], up, n, a, NOTHING);
    if ok {
      HydratedNext(d.env, a, w, d.world, objects, i);
    }
  }

  /**
   * Rebuilds catalog, ledger and bodies from a listing: an entry and a body for every object that opens
   * as one of this vault's records, its slab listed as one only sighted, and no right to release anything.
   */
  method HydrateAll(d: Device, objects: seq<Listed>, up: bool) returns (ok: bool)
    requires d.Valid()
    requires forall o <- objects :: Readable(d.world, o.ref) && o.slab == d.world.placed[o.ref].slab
    modifies d
    ensures d.Valid() && old(d.passed) <= d.passed && Trace(d.passed, old(|d.passed|), old(d.world), NOTHING)
    ensures OnlyFilled(old(d.world), d.world)
    ensures ok ==> HydratedFrom(d.env, old(d.world), d.world, objects)
    ensures d.steady && up ==> ok
  {
    ghost var a := d.world;
    var n := |d.passed|;
    Itself(NOTHING, a);
    for i := 0 to |objects|
      invariant d.Valid() && Trace(d.passed, n, a, NOTHING) && Within(NOTHING, a, d.world) && old(d.passed) <= d.passed
      invariant OnlyFilled(a, d.world) && HydratedFrom(d.env, a, d.world, objects[..i])
    {
      ok := HydrateNext(d, objects, i, up, n, a);
      if !ok {
        return;
      }
    }
    assert objects[..|objects|] == objects;
    ok := true;
  }

  // ---------- reading one record ----------

  datatype Tier = Local | Cached | Network

  datatype Fetched = Got(kind: Kind, body: Bytes, tier: Tier) | Unknown | Unreachable | Unopenable | DeviceError

  datatype Answer = Answered(payload: Bytes) | Unanswered | LocalError

  /** Unframes and opens a payload, refusing one that identifies itself as another record. */
  function OpenBody(env: Env, id: Id, payload: Bytes): Option<Bytes> {
    var found :- env.recover(payload);
    if found.id != id then None else Some(found.body)
  }

  lemma OpensOwn(env: Env, w: State, e: Entry)
    requires Sound(env) && Stored(env, w, e)
    ensures OpenBody(env, e.id, w.placed[e.ref].payload) == Some(env.truth(e.id).bytes)
  {
    assert env.recover(env.payload(e.id)).Some?;
  }

  /** The location cache alone changed. */
  ghost predicate OnlyCached(before: State, after: State) {
    after == before.(cache := after.cache)
  }

  /** Which cached halves are young enough to be trusted. */
  datatype Recency = Recency(halves: set<Ref>, shared: set<Envelope.Hash>)

  /** Both halves of the object's location are held and young enough, its slabs' each and every one. */
  predicate LocationHeld(w: State, r: Ref, recent: Recency) {
    && r in w.cache.halves && r in recent.halves
    && forall h <- w.cache.halves[r].slabs :: h in w.cache.shared && h in recent.shared
  }

  ghost predicate AllReadable(slices: seq<Envelope.Slice>, known: set<Bytes>) {
    forall i {:trigger slices[i]} | 0 <= i < |slices| :: Reachability.Readable(slices[i].slab, known)
  }

  /** The slab reader can be let loose on the object's slabs: each has enough sectors on hosts still listed. */
  ghost predicate Reachable(l: Locator, r: Ref, known: Option<set<Bytes>>) {
    known.Some? && AllReadable(l.sealed(r.bytes).slices, known.value)
  }

  function WithoutLocation(c: LocationCache, r: Ref, slabs: seq<Envelope.Hash>): LocationCache {
    LocationCache(c.halves - {r}, c.shared - Hashes(slabs))
  }

  function Hashes(slabs: seq<Envelope.Hash>): set<Envelope.Hash> { set h <- slabs }

  function WithLocation(l: Locator, c: LocationCache, r: Ref): LocationCache {
    var half := l.half(r.bytes);
    LocationCache(c.halves[r := half], c.shared + map h <- half.slabs :: l.shared(h))
  }

  /** Drops an object's own half, then the shared half of each slab it is on. */
  method ForgetLocation(d: Device, r: Ref, slabs: seq<Envelope.Hash>, n: nat, ghost a: State, ghost b: Bounds)
    returns (ok: bool)
    requires d.Valid() && Trace(d.passed, n, a, b) && Within(b, a, d.world)
    modifies d
    ensures d.Valid() && Trace(d.passed, n, a, b) && Within(b, a, d.world) && old(d.passed) <= d.passed
    ensures OnlyCached(old(d.world), d.world)
    ensures ok ==> d.world.cache == WithoutLocation(old(d.world).cache, r, slabs)
    ensures d.steady ==> ok
  {
    ghost var before := d.world.cache;
    ok := d.SetCache(d.world.cache.(halves := d.world.cache.halves - {r}), n, a, b);
    if !ok {
      return;
    }
    assert d.world.cache == WithoutLocation(before, r, slabs[..0]);
    for i := 0 to |slabs|
      invariant d.Valid() && Trace(d.passed, n, a, b) && Within(b, a, d.world) && old(d.passed) <= d.passed
      invariant OnlyCached(old(d.world), d.world) && d.world.cache == WithoutLocation(before, r, slabs[..i])
    {
      WithoutNext(before, r, slabs, i);
      ok := d.SetCache(WithoutShared(d.world.cache, slabs[i]), n, a, b);
      if !ok {
        return;
      }
    }
    assert slabs[..|slabs|] == slabs;
    ok := true;
  }

  lemma WithoutNext(c: LocationCache, r: Ref, slabs: seq<Envelope.Hash>, i: nat)
    requires i < |slabs|
    ensures WithoutShared(WithoutLocation(c, r, slabs[..i]), slabs[i]) == WithoutLocation(c, r, slabs[..i + 1])
  {
    assert slabs[..i + 1] == slabs[..i] + [slabs[i]];
    assert Hashes(slabs[..i + 1]) == Hashes(slabs[..i]) + {slabs[i]};
  }

  /** The shared halves of these slabs, when every one is held and recent enough. */
  method SharedFor(d: Device, slabs: seq<Envelope.Hash>, recent: set<Envelope.Hash>)
    returns (shared: Option<map<Envelope.Hash, Bytes>>)
    requires d.Valid()
    ensures shared.Some? <==> forall h <- slabs :: h in d.world.cache.shared && h in recent
    ensures shared.Some? ==>
      SharesTruly(d.env.locator, shared.value) && forall h <- slabs :: h in shared.value
  {
    var found: map<Envelope.Hash, Bytes> := map[];
    for i := 0 to |slabs|
      invariant SharesTruly(d.env.locator, found) && forall h <- slabs[..i] :: h in found
      invariant forall h <- slabs[..i] :: h in d.world.cache.shared && h in recent
    {
      assert slabs[i] in slabs;
      if slabs[i] !in d.world.cache.shared || slabs[i] !in recent {
        return None;
      }
      found := found[slabs[i] := d.world.cache.shared[slabs[i]]];
      assert slabs[..i + 1] == slabs[..i] + [slabs[i]];
    }
    assert slabs[..|slabs|] == slabs;
    shared := Some(found);
  }

  /**
   * Joins the halves, refuses what the slab reader would run past the end of, opens what they join to
   * and downloads the object that opens as. It answers exactly when every slab passes that check and
   * the object can be read.
   */
  method DownloadAt(d: Device, r: Ref, half: Half, shared: map<Envelope.Hash, Bytes>, known: Option<set<Bytes>>, up: bool)
    returns (payload: Option<Bytes>)
    requires d.Valid() && half == d.env.locator.half(r.bytes)
    requires SharesTruly(d.env.locator, shared) && forall h <- half.slabs :: h in shared
    ensures payload.Some? <==> Reachable(d.env.locator, r, known) && up && Readable(d.world, r)
    ensures payload.Some? ==> payload.value == d.world.placed[r].payload
  {
    JoinedIsSplit(d.env.locator, r.bytes, shared);
    OpensAsItself(d.env.locator, r.bytes);
    var joined := Envelope.JoinLocation(Envelope.Location(r.bytes, half.slabs, half.bytes), shared);
    match joined {
      case Stale => return None;
      case Panics => return None;
      case Value(o) =>
        var reachable := PassesCheck(o, known);
        if !reachable {
          return None;
        }
        var opens := d.env.locator.opens(o);
        if opens.None? {
          return None;
        }
        payload := d.Download(Ref(opens.value), up);
    }
  }

  /** The check needs the host set; without one nothing passes. */
  method PassesCheck(o: Envelope.SealedObject, known: Option<set<Bytes>>) returns (ok: bool)
    ensures ok <==> known.Some? && AllReadable(o.slices, known.value)
  {
    if known.None? {
      return false;
    }
    var slabs := seq(|o.slices|, i requires 0 <= i < |o.slices| => o.slices[i].slab);
    ok := Reachability.CheckReachable(slabs, known.value);
    assert forall i :: 0 <= i < |o.slices| ==> slabs[i] == o.slices[i].slab;
  }

  /**
   * Tries the cached location, when both its halves are held and recent. It answers exactly when they
   * are and the location passes the check and the object can be read; the answer is the bytes of the
   * object asked for, whichever of its slab-mates last wrote the shared half. A location that was tried
   * and failed is dropped, its own half and its slabs'.
   */
  method FetchCached(d: Device, r: Ref, known: Option<set<Bytes>>, recent: Recency, up: bool, n: nat, ghost a: State,
                     ghost b: Bounds) returns (out: Answer)
    requires d.Valid() && Trace(d.passed, n, a, b) && Within(b, a, d.world)
    modifies d
    ensures d.Valid() && Trace(d.passed, n, a, b) && Within(b, a, d.world) && old(d.passed) <= d.passed
    ensures OnlyCached(old(d.world), d.world)
    ensures out.Answered? <==> LocationHeld(old(d.world), r, recent) && Reachable(d.env.locator, r, known)
                               && up && Readable(old(d.world), r)
    ensures out.Answered? ==> out.payload == d.world.placed[r].payload && d.world == old(d.world)
    ensures !LocationHeld(old(d.world), r, recent) ==> out.Unanswered? && d.world == old(d.world)
    ensures LocationHeld(old(d.world), r, recent) && out.Unanswered? ==>
      d.world.cache == WithoutLocation(old(d.world).cache, r, d.env.locator.half(r.bytes).slabs)
    ensures d.steady ==> !out.LocalError?
  {
    if r !in d.world.cache.halves || r !in recent.halves {
      return Unanswered;
    }
    var half := d.world.cache.halves[r];
    var shared := SharedFor(d, half.slabs, recent.shared);
    if shared.None? {
      return Unanswered;
    }
    var payload := DownloadAt(d, r, half, shared.value, known, up);
    if payload.Some? {
      return Answered(payload.value);
    }
    var ok := ForgetLocation(d, r, half.slabs, n, a, b);
    out := if ok then Unanswered else LocalError;
  }

  /** Splits what the indexer says of an object and caches both halves, the shared ones first. */
  method CacheLocation(d: Device, r: Ref, n: nat, ghost a: State, ghost b: Bounds) returns (ok: bool)
    requires d.Valid() && Trace(d.passed, n, a, b) && Within(b, a, d.world)
    modifies d
    ensures d.Valid() && Trace(d.passed, n, a, b) && Within(b, a, d.world) && old(d.passed) <= d.passed
    ensures OnlyCached(old(d.world), d.world)
    ensures r in d.world.cache.halves && r !in old(d.world).cache.halves ==>
      forall h <- d.world.cache.halves[r].slabs :: h in d.world.cache.shared
    ensures ok ==> d.world.cache == WithLocation(d.env.locator, old(d.world).cache, r)
    ensures d.steady ==> ok
  {
    var l := d.env.locator;
    ghost var before := d.world.cache;
    var location, shared := Envelope.SplitLocation(l.digest, r.bytes, l.sealed(r.bytes));
    SplitIsHalves(l, r.bytes, location, shared);
    ok := CacheAllShared(d, shared, n, a, b);
    if ok {
      SharedAdded(l, before, d.world.cache, r, location.slabs, shared);
      ok := CacheHalf(d, r, Half(location.slabs, location.bytes), n, a, b);
    }
  }

  /** With every shared half cached, caching the object's own completes its location. */
  lemma SharedAdded(l: Locator, before: LocationCache, now: LocationCache, r: Ref, slabs: seq<Envelope.Hash>,
                    shared: seq<Envelope.SlabLocation>)
    requires |slabs| == |shared| && l.half(r.bytes).slabs == slabs
    requires forall i :: 0 <= i < |shared| ==> shared[i].id == slabs[i] && shared[i].bytes == l.shared(shared[i].id)
    requires now == before.(shared := WithAllShared(before.shared, shared))
    ensures LocationCache(now.halves[r := l.half(r.bytes)], now.shared) == WithLocation(l, before, r)
    ensures forall h <- slabs :: h in now.shared
  {
    forall s <- shared ensures s.bytes == l.shared(s.id) {
    }
    SharedIs(l, before.shared, shared);
    IdsAre(slabs, shared);
    SharedMerged(l, before.shared, now.shared, slabs);
  }

  function IdsOf(shared: seq<Envelope.SlabLocation>): set<Envelope.Hash> { set s <- shared :: s.id }

  lemma IdsAre(slabs: seq<Envelope.Hash>, shared: seq<Envelope.SlabLocation>)
    requires |slabs| == |shared| && forall i :: 0 <= i < |shared| ==> shared[i].id == slabs[i]
    ensures forall h :: h in IdsOf(shared) <==> h in slabs
  {
    forall h ensures h in IdsOf(shared) <==> h in slabs {
      if h in slabs {
        var i :| 0 <= i < |slabs| && slabs[i] == h;
        assert shared[i] in shared;
      }
    }
  }

  lemma SharedMerged(l: Locator, held: map<Envelope.Hash, Bytes>, now: map<Envelope.Hash, Bytes>, slabs: seq<Envelope.Hash>)
    requires forall h :: h in now <==> h in held || h in slabs
    requires forall h <- now :: now[h] == if h in slabs then l.shared(h) else held[h]
    ensures now == held + map h <- slabs :: l.shared(h)
  {
  }

  function WithAllShared(held: map<Envelope.Hash, Bytes>, shared: seq<Envelope.SlabLocation>): map<Envelope.Hash, Bytes> {
    if shared == [] then held
    else
      var last := shared[|shared| - 1];
      WithAllShared(held, shared[..|shared| - 1])[last.id := last.bytes]
  }

  lemma {:induction false} SharedIs(l: Locator, held: map<Envelope.Hash, Bytes>, shared: seq<Envelope.SlabLocation>)
    requires forall s <- shared :: s.bytes == l.shared(s.id)
    ensures forall h :: h in WithAllShared(held, shared) <==> h in held || h in IdsOf(shared)
    ensures forall h <- WithAllShared(held, shared) ::
      WithAllShared(held, shared)[h] == if h in IdsOf(shared) then l.shared(h) else held[h]
    decreases |shared|
  {
    if shared != [] {
      var front, last := shared[..|shared| - 1], shared[|shared| - 1];
      assert shared == front + [last] && forall s <- front :: s in shared;
      SharedIs(l, held, front);
      assert last in shared;
    }
  }

  method CacheAllShared(d: Device, shared: seq<Envelope.SlabLocation>, n: nat, ghost a: State, ghost b: Bounds)
    returns (ok: bool)
    requires d.Valid() && Trace(d.passed, n, a, b) && Within(b, a, d.world)
    requires forall s <- shared :: s.bytes == d.env.locator.shared(s.id)
    modifies d
    ensures d.Valid() && Trace(d.passed, n, a, b) && Within(b, a, d.world) && old(d.passed) <= d.passed
    ensures OnlyCached(old(d.world), d.world) && d.world.cache.halves == old(d.world).cache.halves
    ensures ok ==> d.world.cache.shared == WithAllShared(old(d.world).cache.shared, shared)
    ensures d.steady ==> ok
  {
    ghost var before := d.world.cache;
    for i := 0 to |shared|
      invariant d.Valid() && Trace(d.passed, n, a, b) && Within(b, a, d.world) && old(d.passed) <= d.passed
      invariant OnlyCached(old(d.world), d.world)
      invariant d.world.cache == before.(shared := WithAllShared(before.shared, shared[..i]))
    {
      assert shared[i] in shared && shared[..i + 1][..i] == shared[..i];
      ok := CacheShared(d, shared[i], n, a, b);
      if !ok {
        return;
      }
    }
    assert shared[..|shared|] == shared;
    ok := true;
  }

  method CacheShared(d: Device, s: Envelope.SlabLocation, n: nat, ghost a: State, ghost b: Bounds) returns (ok: bool)
    requires d.Valid() && Trace(d.passed, n, a, b) && Within(b, a, d.world) && s.bytes == d.env.locator.shared(s.id)
    modifies d
    ensures d.Valid() && Trace(d.passed, n, a, b) && Within(b, a, d.world) && old(d.passed) <= d.passed
    ensures OnlyCached(old(d.world), d.world) && d.world.cache.halves == old(d.world).cache.halves
    ensures ok ==> d.world.cache.shared == old(d.world).cache.shared[s.id := s.bytes]
    ensures d.steady ==> ok
  {
    ok := d.SetCache(d.world.cache.(shared := d.world.cache.shared[s.id := s.bytes]), n, a, b);
  }

  method CacheHalf(d: Device, r: Ref, half: Half, n: nat, ghost a: State, ghost b: Bounds) returns (ok: bool)
    requires d.Valid() && Trace(d.passed, n, a, b) && Within(b, a, d.world) && half == d.env.locator.half(r.bytes)
    modifies d
    ensures d.Valid() && Trace(d.passed, n, a, b) && Within(b, a, d.world) && old(d.passed) <= d.passed
    ensures d.world == old(d.world) || d.world == old(d.world).(cache := d.world.cache)
    ensures d.world.cache == old(d.world).cache
      || d.world.cache == old(d.world).cache.(halves := old(d.world).cache.halves[r := half])
    ensures ok ==> d.world.cache == old(d.world).cache.(halves := old(d.world).cache.halves[r := half])
    ensures d.steady ==> ok
  {
    ok := d.SetCache(d.world.cache.(halves := d.world.cache.halves[r := half]), n, a, b);
  }

  /** The cached location will answer: it is held and recent, passes the check, and the object can be read. */
  ghost predicate CacheAnswers(env: Env, w: State, r: Ref, known: Option<set<Bytes>>, recent: Recency, up: bool) {
    LocationHeld(w, r, recent) && Reachable(env.locator, r, known) && up && Readable(w, r)
  }

  ghost function BestTier(env: Env, w: State, r: Ref, known: Option<set<Bytes>>, recent: Recency, up: bool): Tier {
    if CacheAnswers(env, w, r, known, recent, up) then Cached else Network
  }

  /** What a read leaves cached: through the indexer, the location just read joins what there was. */
  ghost function AfterReading(env: Env, w: State, r: Ref, tier: Tier): LocationCache {
    if tier == Network then WithLocation(env.locator, w.cache, r) else w.cache
  }

  /** And one that failed: a location that was tried is gone. */
  ghost function AfterFailing(env: Env, w: State, r: Ref, recent: Recency): LocationCache {
    if LocationHeld(w, r, recent) then WithoutLocation(w.cache, r, env.locator.half(r.bytes).slabs) else w.cache
  }

  lemma ReadAgain(l: Locator, c: LocationCache, r: Ref)
    ensures WithLocation(l, WithoutLocation(c, r, l.half(r.bytes).slabs), r) == WithLocation(l, c, r)
  {
    var slabs := l.half(r.bytes).slabs;
    assert forall h :: h in Hashes(slabs) <==> h in slabs;
    var again := map h <- slabs :: l.shared(h);
    assert (c.shared - Hashes(slabs)) + again == c.shared + again;
    assert (c.halves - {r})[r := l.half(r.bytes)] == c.halves[r := l.half(r.bytes)];
  }

  /**
   * Reads from the network: by the cached location exactly when that answers, through the indexer
   * otherwise, which caches the location for next time.
   */
  method FetchRemote(d: Device, r: Ref, known: Option<set<Bytes>>, recent: Recency, up: bool, n: nat, ghost a: State,
                     ghost b: Bounds) returns (out: Answer, tier: Tier)
    requires d.Valid() && Trace(d.passed, n, a, b) && Within(b, a, d.world)
    modifies d
    ensures d.Valid() && Trace(d.passed, n, a, b) && Within(b, a, d.world) && old(d.passed) <= d.passed
    ensures OnlyCached(old(d.world), d.world) && tier != Local
    ensures out.Answered? ==> r in d.world.placed && out.payload == d.world.placed[r].payload
    ensures out.Answered? ==> (tier == Cached <==> CacheAnswers(d.env, old(d.world), r, known, recent, up))
    ensures out.Answered? ==> r in d.world.cache.halves && forall h <- d.world.cache.halves[r].slabs :: h in d.world.cache.shared
    ensures CacheAnswers(d.env, old(d.world), r, known, recent, up) ==> out.Answered? && d.world == old(d.world)
    ensures out.Unanswered? ==> !(up && Readable(d.world, r)) && d.world.cache == AfterFailing(d.env, old(d.world), r, recent)
    ensures out.Answered? ==> d.world.cache == AfterReading(d.env, old(d.world), r, tier)
    ensures !(up && Readable(d.world, r)) ==> !out.Answered?
    ensures d.steady ==> !out.LocalError?
  {
    tier := Cached;
    ReadAgain(d.env.locator, d.world.cache, r);
    out := FetchCached(d, r, known, recent, up, n, a, b);
    if !out.Unanswered? {
      return;
    }
    tier := Network;
    var payload := d.Download(r, up);
    if payload.None? {
      return Unanswered, tier;
    }
    var ok := CacheLocation(d, r, n, a, b);
    out := if ok then Answered(payload.value) else LocalError;
  }

  /**
   * Reads one record from the cheapest source that holds it: this device, then the cached location
   * exactly when that answers, then the indexer. Whichever answers gives exactly the kind and bytes the
   * record was stored with, and from then on this device holds them; a location read through the indexer
   * is cached, and one that was tried and failed is dropped. A catalogued record is never unopenable,
   * and is unreachable only while the network is.
   */
  method Fetch(d: Device, id: Id, known: Option<set<Bytes>>, recent: Recency, up: bool) returns (r: Fetched)
    requires d.Valid()
    modifies d
    ensures d.Valid() && old(d.passed) <= d.passed && Trace(d.passed, old(|d.passed|), old(d.world), NOTHING)
    ensures d.world == old(d.world).(bodies := d.world.bodies, cache := d.world.cache)
    ensures r.Got? ==> Body(r.kind, r.body) == d.env.truth(id)
    ensures r.Got? ==> d.world.bodies == old(d.world).bodies[id := d.env.truth(id)]
    ensures id in old(d.world).bodies ==> r.Got? && r.tier == Local && d.world == old(d.world)
    ensures r.Unknown? <==> id !in old(d.world).bodies && id !in d.world.catalog
    ensures !r.Unopenable? && (r.Unreachable? ==> !up)
    ensures r.Got? && id !in old(d.world).bodies ==>
      var ref := d.world.catalog[id].ref;
      && up && r.tier == BestTier(d.env, old(d.world), ref, known, recent, up)
      && d.world.cache == AfterReading(d.env, old(d.world), ref, r.tier)
    ensures r.Unreachable? ==> d.world.bodies == old(d.world).bodies
    ensures r.Unreachable? ==> d.world.cache == AfterFailing(d.env, old(d.world), d.world.catalog[id].ref, recent)
    ensures d.steady ==> !r.DeviceError?
  {
    if id in d.world.bodies {
      return Got(d.world.bodies[id].kind, d.world.bodies[id].bytes, Local);
    }
    if id !in d.world.catalog {
      return Unknown;
    }
    r := FetchCatalogued(d, id, known, recent, up);
  }

  method FetchCatalogued(d: Device, id: Id, known: Option<set<Bytes>>, recent: Recency, up: bool) returns (r: Fetched)
    requires d.Valid() && id in d.world.catalog
    modifies d
    ensures d.Valid() && old(d.passed) <= d.passed && Trace(d.passed, old(|d.passed|), old(d.world), NOTHING)
    ensures d.world == old(d.world).(bodies := d.world.bodies, cache := d.world.cache)
    ensures r.Got? ==> Body(r.kind, r.body) == d.env.truth(id) && up
    ensures r.Got? ==> d.world.bodies == old(d.world).bodies[id := d.env.truth(id)]
    ensures r.Got? ==>
      var ref := d.world.catalog[id].ref;
      && r.tier == BestTier(d.env, old(d.world), ref, known, recent, up)
      && d.world.cache == AfterReading(d.env, old(d.world), ref, r.tier)
    ensures r.Unreachable? ==> d.world.bodies == old(d.world).bodies
    ensures r.Unreachable? ==> d.world.cache == AfterFailing(d.env, old(d.world), d.world.catalog[id].ref, recent)
    ensures !r.Unknown? && !r.Unopenable? && (r.Unreachable? ==> !up)
    ensures d.steady ==> !r.DeviceError?
  {
    ghost var a := d.world;
    var n := |d.passed|;
    Itself(NOTHING, a);
    var e := d.world.catalog[id];
    assert Stored(d.env, a, e);
    OpensOwn(d.env, a, e);
    var out, tier := FetchRemote(d, e.ref, known, recent, up, n, a, NOTHING);
    if out.LocalError? {
      return DeviceError;
    }
    if out.Unanswered? {
      return Unreachable;
    }
    var body := OpenBody(d.env, id, out.payload);
    if body.None? {
      return Unopenable;
    }
    var ok := HoldBody(d, id, Body(e.kind, body.value), n, a, NOTHING);
    r := if ok then Got(e.kind, body.value, tier) else DeviceError;
  }

  /** Drops a body from this device alone; reading the record again means asking the network. */
  method ForgetLocally(d: Device, id: Id) returns (ok: bool)
    requires d.Valid()
    modifies d
    ensures d.Valid() && old(d.passed) <= d.passed && Trace(d.passed, old(|d.passed|), old(d.world), NOTHING)
    ensures d.world == old(d.world) || d.world == old(d.world).(bodies := old(d.world).bodies - {id})
    ensures ok ==> id !in d.world.bodies
    ensures d.steady ==> ok
  {
    ghost var a := d.world;
    Itself(NOTHING, a);
    ok := DropBody(d, id, |d.passed|, a, NOTHING);
  }

  /** Drops an object's own cached half, or one slab's shared half, without the other. */
  method Evict(d: Device, r: Ref, slab: Envelope.Hash) returns (ok: bool)
    requires d.Valid()
    modifies d
    ensures d.Valid() && old(d.passed) <= d.passed && Trace(d.passed, old(|d.passed|), old(d.world), NOTHING)
    ensures OnlyCached(old(d.world), d.world)
    ensures ok ==>
      || d.world.cache == old(d.world).cache.(halves := old(d.world).cache.halves - {r})
      || d.world.cache == old(d.world).cache.(shared := old(d.world).cache.shared - {slab})
  {
    ghost var a := d.world;
    Itself(NOTHING, a);
    var cache, ownHalf := d.world.cache, *;
    ok := d.SetCache(if ownHalf then cache.(halves := cache.halves - {r}) else cache.(shared := cache.shared - {slab}),
                     |d.passed|, a, NOTHING);
  }

  /** The deliberate act of claiming what was hydrated. */
  method ClaimSlabs(d: Device) returns (ok: bool)
    requires d.Valid()
    modifies d
    ensures d.Valid() && old(d.passed) <= d.passed && Trace(d.passed, old(|d.passed|), old(d.world), NOTHING)
    ensures d.world == old(d.world).(ledger := d.world.ledger) && d.world.ledger.Keys == old(d.world).ledger.Keys
    ensures ok ==> forall s <- d.world.ledger :: Releasable(d.world.ledger[s])
    ensures !ok ==> d.world == old(d.world) || forall s <- d.world.ledger :: Releasable(d.world.ledger[s])
    ensures d.steady ==> ok
  {
    ghost var a := d.world;
    Itself(NOTHING, a);
    AccountedSafe(d.env, d.world, TakeOwnership(d.world.ledger), d.world.cache, d.world.queue);
    ok := d.WriteLocal(d.world.(ledger := TakeOwnership(d.world.ledger)), |d.passed|, a, NOTHING);
  }

  /** Another installation of the vault, or another tool on the account, writes something of its own. */
  method OtherInstallation(d: Device, payloads: seq<Bytes>)
    requires d.Valid() && forall p <- payloads :: Genuine(d.env, p)
    modifies d
    ensures d.Valid() && old(d.passed) <= d.passed && Trace(d.passed, old(|d.passed|), old(d.world), NOTHING)
  {
    ghost var a := d.world;
    Itself(NOTHING, a);
    var _, _ := d.PutBatch(payloads, |d.passed|, a, NOTHING);
  }
}
