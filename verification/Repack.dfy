/** Moving all catalogued records to fresh slabs and releasing the ones they leave. */
module Repack {
  import opened Bytes
  import opened Records
  import opened World
  import opened Ledger
  import opened Sweeping
  import opened Vault
  import opened Reclaim

  /** Every slab an entry sits on was pinned by this device. */
  predicate OwnsAll(w: State) { forall s <- LiveSlabs(w) :: Owned(w, s) }

  /** Readable objects no entry names that share a slab with an entry: what releasing that slab strands. */
  ghost function Bystanders(w: State): set<Ref> {
    set r <- w.objects | Readable(w, r) && w.placed[r].slab in LiveSlabs(w) && r !in LiveRefs(w)
  }

  /** A repack may delete and release what it rewrote, and only when this device pinned all of it. */
  ghost function RepackBounds(a: State): Bounds {
    if OwnsAll(a) then Bounds({}, LiveRefs(a), LiveSlabs(a), Bystanders(a), true) else NOTHING
  }

  /** The catalog lists the same records with the same kinds and CIDs, wherever each now is. */
  ghost predicate SameRecords(a: State, w: State) {
    && w.catalog.Keys == a.catalog.Keys
    && forall id <- a.catalog :: w.catalog[id].kind == a.catalog[id].kind && w.catalog[id].cid == a.catalog[id].cid
  }

  method ReadAll(d: Device, es: seq<Entry>, up: bool) returns (payloads: Option<seq<Bytes>>)
    requires d.Valid() && Lists(d.world.catalog, d.world.catalog.Keys, es)
    ensures payloads.Some? ==> |payloads.value| == |es|
    ensures payloads.Some? ==> forall i :: 0 <= i < |es| ==> payloads.value[i] == d.env.payload(es[i].id)
    ensures payloads.Some? <==> up || es == []
  {
    var out: seq<Bytes> := [];
    for i := 0 to |es|
      invariant |out| == i && forall j :: 0 <= j < i ==> out[j] == d.env.payload(es[j].id)
      invariant i > 0 ==> up
    {
      assert es[i] in es && Stored(d.env, d.world, es[i]);
      var payload := d.Download(es[i].ref, up);
      if payload.None? {
        return None;
      }
      out := out + [payload.value];
    }
    payloads := Some(out);
  }

  /** Where each record was rewritten to. */
  type Moves = map<Id, Written>

  function SlabsOf(moves: Moves): set<SlabId> { set id <- moves :: moves[id].slab }

  /** The new objects are fresh, readable, and hold each record's own payload. */
  ghost predicate Homes(env: Env, a: State, w: State, moves: Moves) {
    moves.Keys == a.catalog.Keys && forall id {:trigger HomeOf(env, a, w, id, moves[id])} | id in moves ::
      HomeOf(env, a, w, id, moves[id])
  }

  /** Nothing but the rewritten records has been added to what the account lists. */
  ghost predicate Added(a: State, w: State, moves: Moves) {
    a.objects <= w.objects && forall r <- w.objects :: r in a.objects || exists id <- moves :: moves[id].ref == r
  }

  ghost predicate HomeOf(env: Env, a: State, w: State, id: Id, x: Written) {
    x.ref !in a.placed && Readable(w, x.ref) && w.placed[x.ref] == Placement(x.slab, env.payload(id))
  }

  method MovesOf(es: seq<Entry>, written: seq<Written>) returns (moves: Moves)
    requires |written| == |es|
    requires forall i, j :: 0 <= i < j < |es| ==> es[i].id != es[j].id
    ensures forall i :: 0 <= i < |es| ==> es[i].id in moves && moves[es[i].id] == written[i]
    ensures forall id <- moves :: exists i :: 0 <= i < |es| && es[i].id == id
  {
    moves := map[];
    for i := 0 to |es|
      invariant forall j :: 0 <= j < i ==> es[j].id in moves && moves[es[j].id] == written[j]
      invariant forall id <- moves :: exists j :: 0 <= j < i && es[j].id == id
    {
      moves := moves[es[i].id := written[i]];
    }
  }

  lemma BatchIsHome(env: Env, a: State, w: State, es: seq<Entry>, written: seq<Written>, payloads: seq<Bytes>,
                    moves: Moves)
    requires |written| == |es| == |payloads| && Placed(a, w, written, payloads) && Grown(a, w, written)
    requires forall x <- written :: Readable(w, x.ref)
    requires forall i :: 0 <= i < |es| ==> payloads[i] == env.payload(es[i].id)
    requires forall id <- a.catalog :: a.catalog[id] in es && a.catalog[id].id == id
    requires forall e <- es :: e.id in a.catalog
    requires forall i :: 0 <= i < |es| ==> es[i].id in moves && moves[es[i].id] == written[i]
    requires forall id <- moves :: exists i :: 0 <= i < |es| && es[i].id == id
    ensures Homes(env, a, w, moves) && Added(a, w, moves)
  {
    forall id <- moves ensures id in a.catalog && HomeOf(env, a, w, id, moves[id]) {
      var i :| 0 <= i < |es| && es[i].id == id;
      assert es[i] in es && written[i] in written;
    }
    forall id <- a.catalog ensures id in moves {
      var i :| 0 <= i < |es| && es[i] == a.catalog[id];
    }
    forall r <- w.objects ensures r in a.objects || exists id <- moves :: moves[id].ref == r {
      if r !in a.objects {
        var x :| x in written && x.ref == r;
        var i :| 0 <= i < |written| && written[i] == x;
        assert moves[es[i].id].ref == r;
      }
    }
  }

  function MovedEntry(e: Entry, x: Written): Entry { e.(ref := x.ref, slab := x.slab) }

  /** The catalog with the records in `done` where they were rewritten to, the others where they were. */
  function Recatalogued(catalog: map<Id, Entry>, moves: Moves, done: set<Id>): map<Id, Entry>
    requires done <= moves.Keys
  {
    map id <- catalog :: if id in done then MovedEntry(catalog[id], moves[id]) else catalog[id]
  }

  lemma MoveNext(catalog: map<Id, Entry>, moves: Moves, done: set<Id>, id: Id)
    requires done <= moves.Keys && id in moves && id in catalog && id !in done
    ensures Recatalogued(catalog, moves, done + {id})
      == Recatalogued(catalog, moves, done)[id := MovedEntry(Recatalogued(catalog, moves, done)[id], moves[id])]
  {
  }

  lemma MovingKeepsRecords(a: State, w: State, moves: Moves, done: set<Id>)
    requires done <= moves.Keys && w.catalog == Recatalogued(a.catalog, moves, done)
    ensures SameRecords(a, w)
  {
  }

  /** Points one record at where it was rewritten, then forgets the cached location of the old object. */
  method RelocateOne(d: Device, id: Id, x: Written, n: nat, ghost a: State, ghost b: Bounds) returns (ok: bool)
    requires d.Valid() && Trace(d.passed, n, a, b) && Within(b, a, d.world)
    requires id in d.world.catalog && HomeOf(d.env, a, d.world, id, x) && Owned(d.world, x.slab)
    modifies d
    ensures d.Valid() && Trace(d.passed, n, a, b) && Within(b, a, d.world) && old(d.passed) <= d.passed
    ensures d.world == old(d.world).(catalog := d.world.catalog, cache := d.world.cache)
    ensures d.world.catalog == old(d.world).catalog
      || d.world.catalog == old(d.world).catalog[id := MovedEntry(old(d.world).catalog[id], x)]
    ensures ok ==> d.world.catalog == old(d.world).catalog[id := MovedEntry(old(d.world).catalog[id], x)]
    ensures ok ==> d.world.cache == WithoutHalves(old(d.world).cache, {old(d.world).catalog[id].ref})
    ensures d.steady ==> ok
  {
    var e := d.world.catalog[id];
    assert Stored(d.env, d.world, e);
    ok := d.Catalog(MovedEntry(e, x), n, a, b);
    if !ok {
      return;
    }
    ok := d.SetCache(WithoutHalves(d.world.cache, {e.ref}), n, a, b);
  }

  function WithoutHalves(c: LocationCache, refs: set<Ref>): LocationCache { c.(halves := c.halves - refs) }

  function RefsFor(catalog: map<Id, Entry>, ids: set<Id>): set<Ref> { set id <- ids | id in catalog :: catalog[id].ref }

  /** The records in `done` have been moved over, those in `left` are still to be. */
  ghost predicate Moving(a: State, w: State, now: State, moves: Moves, left: set<Id>, done: set<Id>) {
    && now == w.(catalog := now.catalog, cache := now.cache)
    && left !! done && left + done == moves.Keys
    && now.catalog == Recatalogued(a.catalog, moves, done)
  }

  /** And the cached locations of the objects they came from have been forgotten. */
  ghost predicate Uncached(a: State, w: State, now: State, done: set<Id>) {
    now.cache == WithoutHalves(w.cache, RefsFor(a.catalog, done))
  }

  lemma MovedOne(a: State, w: State, now: State, next: State, moves: Moves, left: set<Id>, done: set<Id>, id: Id)
    requires Moving(a, w, now, moves, left, done) && id in left && moves.Keys == a.catalog.Keys
    requires next == now.(catalog := next.catalog, cache := next.cache)
    requires next.catalog == now.catalog[id := MovedEntry(now.catalog[id], moves[id])]
    ensures Moving(a, w, next, moves, left - {id}, done + {id})
    ensures now.catalog[id] == a.catalog[id]
  {
    MoveNext(a.catalog, moves, done, id);
  }

  lemma UncachedOne(a: State, w: State, now: State, next: State, done: set<Id>, id: Id)
    requires Uncached(a, w, now, done) && id in a.catalog
    requires next.cache == WithoutHalves(now.cache, {a.catalog[id].ref})
    ensures Uncached(a, w, next, done + {id})
  {
    assert RefsFor(a.catalog, done + {id}) == RefsFor(a.catalog, done) + {a.catalog[id].ref};
  }

  /** Takes one of the records still to be moved. */
  method RelocateNext(d: Device, moves: Moves, left: set<Id>, n: nat, ghost a: State, ghost w: State, ghost b: Bounds,
                      ghost done: set<Id>)
    returns (ok: bool, rest: set<Id>, ghost after: set<Id>)
    requires d.Valid() && Trace(d.passed, n, a, b) && Within(b, a, d.world)
    requires Homes(d.env, a, w, moves) && Moving(a, w, d.world, moves, left, done) && left != {}
    requires Uncached(a, w, d.world, done) && forall s <- SlabsOf(moves) :: Owned(w, s)
    modifies d
    ensures d.Valid() && Trace(d.passed, n, a, b) && Within(b, a, d.world) && old(d.passed) <= d.passed
    ensures Moving(a, w, d.world, moves, rest, after)
    ensures ok ==> rest < left && Uncached(a, w, d.world, after)
    ensures d.steady ==> ok
  {
    var id :| id in left;
    rest, after := left, done;
    HomeStays(d.env, a, w, d.world, moves, id);
    assert moves[id].slab in SlabsOf(moves);
    ghost var now := d.world;
    var before := d.world.catalog;
    ok := RelocateOne(d, id, moves[id], n, a, b);
    if ok || d.world.catalog != before {
      MovedOne(a, w, now, d.world, moves, left, done, id);
      rest, after := left - {id}, done + {id};
    }
    if ok {
      UncachedOne(a, w, now, d.world, done, id);
    }
  }

  lemma NoneMoved(a: State, w: State, moves: Moves)
    requires w.catalog == a.catalog
    ensures Moving(a, w, w, moves, moves.Keys, {}) && Uncached(a, w, w, {})
  {
    assert w.cache.halves - {} == w.cache.halves;
  }

  /** Points the catalog at where each record was rewritten; the record ids do not change. */
  method Relocate(d: Device, moves: Moves, n: nat, ghost a: State, ghost w: State, ghost b: Bounds)
    returns (ok: bool, ghost done: set<Id>)
    requires d.Valid() && Trace(d.passed, n, a, b) && Within(b, a, d.world)
    requires Homes(d.env, a, w, moves) && d.world == w && w.catalog == a.catalog
    requires forall s <- SlabsOf(moves) :: Owned(w, s)
    modifies d
    ensures d.Valid() && Trace(d.passed, n, a, b) && Within(b, a, d.world) && old(d.passed) <= d.passed
    ensures Moving(a, w, d.world, moves, moves.Keys - done, done)
    ensures ok ==> done == moves.Keys && Uncached(a, w, d.world, done)
    ensures d.steady ==> ok
  {
    NoneMoved(a, w, moves);
    var left := moves.Keys;
    done := {};
    while left != {}
      invariant d.Valid() && Trace(d.passed, n, a, b) && Within(b, a, d.world) && old(d.passed) <= d.passed
      invariant Moving(a, w, d.world, moves, left, done) && Uncached(a, w, d.world, done)
      decreases left
    {
      ok, left, done := RelocateNext(d, moves, left, n, a, w, b, done);
      if !ok {
        assert left == moves.Keys - done;
        return;
      }
    }
    assert left == moves.Keys - done;
    ok := true;
  }

  lemma HomeStays(env: Env, a: State, w: State, next: State, moves: Moves, id: Id)
    requires Homes(env, a, w, moves) && id in moves
    requires next == w.(catalog := next.catalog, cache := next.cache)
    ensures HomeOf(env, a, next, id, moves[id])
  {
    assert HomeOf(env, a, w, id, moves[id]);
  }

  /** Every entry has been pointed at its new object. */
  ghost predicate Everywhere(a: State, w: State, moves: Moves) {
    w.catalog == Recatalogued(a.catalog, moves, moves.Keys)
  }

  /** Every entry now names a new object, on one of the slabs just written. */
  lemma MovedAway(env: Env, a: State, w: State, moves: Moves)
    requires Safe(env, a) && moves.Keys == a.catalog.Keys && Everywhere(a, w, moves)
    requires forall id <- moves :: moves[id].ref !in a.placed
    ensures LiveRefs(w) !! LiveRefs(a) && LiveSlabs(w) == SlabsOf(moves)
    ensures forall id <- w.catalog :: w.catalog[id].ref !in a.placed
  {
    forall id <- a.catalog ensures a.catalog[id].ref in a.placed {
      assert Stored(env, a, a.catalog[id]);
    }
    forall id <- moves ensures w.catalog[id].ref == moves[id].ref && w.catalog[id].slab == moves[id].slab {
    }
    forall s ensures s in LiveSlabs(w) <==> s in SlabsOf(moves) {
      if s in SlabsOf(moves) {
        var id :| id in moves && moves[id].slab == s;
        assert w.catalog[id].slab == s;
      }
    }
  }

  /** Whatever is left on a slab being released shared it without being catalogued. */
  lemma LeftBehind(env: Env, a: State, w: State, moves: Moves, slab: SlabId)
    requires Safe(env, a) && Retired(env, a, w, moves) && slab in LiveSlabs(a) - SlabsOf(moves)
    ensures OnSlab(w, slab) <= Bystanders(a)
  {
    LiveSlabsPinned(env, a);
    forall r <- OnSlab(w, slab) ensures r in Bystanders(a) {
      NotMoved(a, w, moves, slab, r);
    }
  }

  lemma NotMoved(a: State, w: State, moves: Moves, slab: SlabId, r: Ref)
    requires a.objects <= a.placed.Keys && LiveSlabs(a) <= a.pinned && slab in LiveSlabs(a) - SlabsOf(moves)
    requires r in OnSlab(w, slab) && Preserved(a, w) && w.objects !! LiveRefs(a)
    requires forall id <- moves :: moves[id].ref in w.placed && w.placed[moves[id].ref].slab == moves[id].slab
    requires r in a.objects || exists id <- moves :: moves[id].ref == r
    ensures r in Bystanders(a)
  {
    forall id <- moves ensures w.placed[moves[id].ref].slab != slab {
      assert moves[id].slab in SlabsOf(moves);
    }
  }

  /** The catalog has moved and the old objects are gone; only old slabs remain to be released. */
  ghost predicate Retired(env: Env, a: State, w: State, moves: Moves) {
    && moves.Keys == a.catalog.Keys && Everywhere(a, w, moves) && Preserved(a, w)
    && (forall id <- moves :: moves[id].ref !in a.placed && moves[id].ref in w.placed
                              && w.placed[moves[id].ref].slab == moves[id].slab)
    && (forall r <- w.objects :: r in a.objects || exists id <- moves :: moves[id].ref == r)
    && w.objects !! LiveRefs(a) && a.objects - LiveRefs(a) <= w.objects
    && w.bodies == a.bodies
  }

  lemma RetiredStays(env: Env, a: State, w: State, moves: Moves, next: State)
    requires Retired(env, a, w, moves)
    requires next == w.(pinned := next.pinned, ledger := next.ledger, cache := next.cache)
    ensures Retired(env, a, next, moves)
  {
  }

  /** Files the new slabs, then moves the catalog over: nothing is moved before every slab is filed. */
  method Recatalogue(d: Device, moves: Moves, n: nat, ghost a: State, ghost b: Bounds)
    returns (ok: bool, ghost done: set<Id>)
    requires d.Valid() && Trace(d.passed, n, a, b) && Within(b, a, d.world)
    requires Homes(d.env, a, d.world, moves) && d.world.catalog == a.catalog
    modifies d
    ensures d.Valid() && Trace(d.passed, n, a, b) && Within(b, a, d.world) && old(d.passed) <= d.passed
    ensures d.world
      == old(d.world).(catalog := d.world.catalog, ledger := d.world.ledger, cache := d.world.cache)
    ensures done <= moves.Keys && d.world.catalog == Recatalogued(a.catalog, moves, done)
    ensures ok ==> done == moves.Keys && d.world.ledger == Filed(old(d.world).ledger, SlabsOf(moves))
    ensures ok ==> d.world.cache == WithoutHalves(old(d.world).cache, LiveRefs(a))
    ensures d.steady ==> ok
  {
    done := {};
    assert Recatalogued(a.catalog, moves, {}) == a.catalog;
    ok := FileHomes(d, moves, n, a, b);
    if !ok {
      return;
    }
    ghost var filed := d.world;
    ok, done := Relocate(d, moves, n, a, filed, b);
    if ok {
      AllUncached(a, filed, d.world, moves, done);
    }
  }

  lemma AllUncached(a: State, w: State, now: State, moves: Moves, done: set<Id>)
    requires moves.Keys == a.catalog.Keys == done && Uncached(a, w, now, done)
    ensures now.cache == WithoutHalves(w.cache, LiveRefs(a))
  {
    assert RefsFor(a.catalog, done) == LiveRefs(a);
  }

  method FileHomes(d: Device, moves: Moves, n: nat, ghost a: State, ghost b: Bounds) returns (ok: bool)
    requires d.Valid() && Trace(d.passed, n, a, b) && Within(b, a, d.world) && Homes(d.env, a, d.world, moves)
    modifies d
    ensures d.Valid() && Trace(d.passed, n, a, b) && Within(b, a, d.world) && old(d.passed) <= d.passed
    ensures d.world == old(d.world).(ledger := d.world.ledger) && Homes(d.env, a, d.world, moves)
    ensures ok ==> d.world.ledger == Filed(old(d.world).ledger, SlabsOf(moves))
    ensures ok ==> forall s <- SlabsOf(moves) :: Owned(d.world, s)
    ensures d.steady ==> ok
  {
    ghost var w := d.world;
    ok := d.FileAll(SlabsOf(moves), n, a, b);
    HomesAccounted(d.env, a, w, d.world, moves);
  }

  lemma HomesAccounted(env: Env, a: State, w: State, next: State, moves: Moves)
    requires Homes(env, a, w, moves) && next == w.(ledger := next.ledger)
    ensures Homes(env, a, next, moves)
  {
    forall id <- moves ensures HomeOf(env, a, next, id, moves[id]) {
      assert HomeOf(env, a, w, id, moves[id]);
    }
  }

  lemma RetiredNow(env: Env, a: State, w: State, moved: State, next: State, moves: Moves)
    requires Homes(env, a, w, moves) && Added(a, w, moves) && Preserved(a, w) && w.bodies == a.bodies
    requires moved == w.(catalog := moved.catalog, ledger := moved.ledger, cache := moved.cache)
    requires Everywhere(a, moved, moves) && next == moved.(objects := moved.objects - LiveRefs(a))
    ensures Retired(env, a, next, moves)
  {
    forall id <- moves ensures moves[id].ref !in a.placed && moves[id].ref in next.placed
                               && next.placed[moves[id].ref].slab == moves[id].slab {
      assert HomeOf(env, a, w, id, moves[id]);
    }
  }

  /** Deletes the objects the records came from, then releases the slabs nothing was written back to. */
  method Retire(d: Device, moves: Moves, stale: set<Ref>, released: set<SlabId>,
                n: nat, ghost a: State, ghost w: State, ghost b: Bounds) returns (out: Outcome)
    requires d.Valid() && Trace(d.passed, n, a, b) && Within(b, a, d.world)
    requires Safe(d.env, a) && OwnsAll(a) && b == RepackBounds(a)
    requires Homes(d.env, a, w, moves) && Added(a, w, moves) && w.bodies == a.bodies
    requires d.world == w.(catalog := d.world.catalog, ledger := d.world.ledger, cache := d.world.cache)
    requires Everywhere(a, d.world, moves)
    requires stale == LiveRefs(a) && released == LiveSlabs(a) - SlabsOf(moves)
    modifies d
    ensures d.Valid() && Trace(d.passed, n, a, b) && old(d.passed) <= d.passed && !out.Refused?
    ensures d.world.catalog == old(d.world).catalog && d.world.bodies == a.bodies
    ensures out.Done? ==> Retired(d.env, a, d.world, moves) && Within(b, a, d.world)
    ensures out.Done? ==> ReleasedOnly(old(d.world).(objects := old(d.world).objects - stale), d.world, released)
    ensures d.steady ==> out.Done?
  {
    ghost var moved := d.world;
    HomesAreFresh(d.env, a, w, moves);
    MovedAway(d.env, a, moved, moves);
    var ok := d.DeleteObjects(stale, n, a, b);
    if !ok {
      return Failed;
    }
    RetiredNow(d.env, a, w, moved, d.world, moves);
    out := ReleaseOld(d, released, moves, n, a, b);
  }

  lemma HomesAreFresh(env: Env, a: State, w: State, moves: Moves)
    requires Homes(env, a, w, moves)
    ensures forall id <- moves :: moves[id].ref !in a.placed
  {
    forall id <- moves ensures moves[id].ref !in a.placed {
      assert HomeOf(env, a, w, id, moves[id]);
    }
  }

  method ReleaseOld(d: Device, released: set<SlabId>, ghost moves: Moves, n: nat, ghost a: State, ghost b: Bounds)
    returns (out: Outcome)
    requires d.Valid() && Trace(d.passed, n, a, b) && Within(b, a, d.world)
    requires Safe(d.env, a) && OwnsAll(a) && b == RepackBounds(a) && Retired(d.env, a, d.world, moves)
    requires released == LiveSlabs(a) - SlabsOf(moves)
    modifies d
    ensures d.Valid() && Trace(d.passed, n, a, b) && old(d.passed) <= d.passed && !out.Refused?
    ensures Retired(d.env, a, d.world, moves) && d.world.catalog == old(d.world).catalog
    ensures out.Done? ==> Within(b, a, d.world) && ReleasedOnly(old(d.world), d.world, released)
    ensures d.steady ==> out.Done?
  {
    ghost var w := d.world;
    OldAreSpare(d.env, a, w, moves, released);
    out := ReleaseAll(d, released, n, a, b);
    RetiredStays(d.env, a, w, moves, d.world);
  }

  /** Nothing live is on an old slab no record landed back in, and what else is on it was a bystander. */
  lemma OldAreSpare(env: Env, a: State, w: State, moves: Moves, released: set<SlabId>)
    requires Safe(env, a) && OwnsAll(a) && Retired(env, a, w, moves) && released == LiveSlabs(a) - SlabsOf(moves)
    ensures MayRelease(RepackBounds(a), w, released)
  {
    MovedAway(env, a, w, moves);
    forall s <- released ensures OnSlab(w, s) <= RepackBounds(a).stranded {
      LeftBehind(env, a, w, moves, s);
    }
  }

  /** What releasing the slabs no record landed back on leaves unreadable. */
  ghost function LeftOn(a: State, w: State): set<Ref> {
    set r <- Bystanders(a) | a.placed[r].slab !in LiveSlabs(w)
  }

  /** A completed repack strands exactly the uncatalogued objects on the slabs it released. */
  lemma StrandsExactly(env: Env, a: State, w: State, moves: Moves)
    requires Safe(env, a) && Safe(env, w) && Retired(env, a, w, moves) && OwnsAll(a) && Within(RepackBounds(a), a, w)
    requires (LiveSlabs(a) - SlabsOf(moves)) !! w.pinned
    ensures Stranded(w) - Stranded(a) == LeftOn(a, w)
  {
    MovedAway(env, a, w, moves);
    forall r <- Stranded(w) - Stranded(a) ensures r in LeftOn(a, w) {
      NewlyStranded(env, a, w, moves, r);
    }
    forall r <- LeftOn(a, w) ensures r in Stranded(w) - Stranded(a) {
      assert w.placed[r] == a.placed[r];
    }
  }

  lemma NewlyStranded(env: Env, a: State, w: State, moves: Moves, r: Ref)
    requires Safe(env, a) && Safe(env, w) && Retired(env, a, w, moves) && OwnsAll(a) && Within(RepackBounds(a), a, w)
    requires r in Stranded(w) - Stranded(a)
    ensures r in LeftOn(a, w)
  {
    assert r in Bystanders(a) && w.placed[r] == a.placed[r];
    LiveSlabsPinned(env, w);
  }

  lemma LiveSlabsPinned(env: Env, w: State)
    requires Safe(env, w)
    ensures LiveSlabs(w) <= w.pinned
  {
    forall id <- w.catalog ensures w.catalog[id].slab in w.pinned {
      assert Stored(env, w, w.catalog[id]);
    }
  }

  /**
   * A completed repack leaves the same records under the same ids, kinds and CIDs, every one of them
   * at a fresh object, and says exactly what else there then is: the objects, the pinned slabs, the
   * ledger, the cached locations, and what was stranded (`Repacked`). An interrupted one loses none of
   * that for any record: the trace only allows deleting the old objects and releasing the old slabs,
   * and points no record at a new object whose slab is not yet in the ledger. It refuses while records
   * are queued, or unless this device pinned every slab it would release, as it has after a completed one.
   */
  method RepackAll(d: Device, pending: nat, up: bool) returns (out: Outcome)
    requires d.Valid()
    modifies d
    ensures d.Valid() && old(d.passed) <= d.passed
    ensures Trace(d.passed, old(|d.passed|), old(d.world), RepackBounds(old(d.world)))
    ensures out.Refused? <==> pending > 0 || !OwnsAll(old(d.world))
    ensures out.Refused? ==> d.world == old(d.world)
    ensures SameRecords(old(d.world), d.world) && d.world.bodies == old(d.world).bodies
    ensures out.Done? ==> Repacked(old(d.world), d.world) && OwnsAll(d.world)
    ensures d.steady && up ==> !out.Failed?
    ensures !up && !out.Refused? && old(d.world).catalog != map[] ==> out.Failed? && d.world == old(d.world)
  {
    ghost var a := d.world;
    ghost var b := RepackBounds(a);
    EntriesAreHome(d.env, a);
    Itself(b, a);
    var n := |d.passed|;
    if pending > 0 {
      return Refused;
    }
    var es := d.Entries();
    var from := LiveSlabs(d.world);
    var owned := forall s <- from :: Owned(d.world, s);
    if !owned {
      return Refused;
    }
    if es == [] {
      NothingToMove(a);
      return Done;
    }
    ghost var moves, done;
    out, moves, done := MoveAll(d, es, up, n, a, b);
    MovingKeepsRecords(a, d.world, moves, done);
  }

  lemma EntriesAreHome(env: Env, a: State)
    requires Safe(env, a)
    ensures Homed(a, a)
  {
    forall id <- a.catalog ensures a.catalog[id].ref in a.placed {
      assert Stored(env, a, a.catalog[id]);
    }
  }

  lemma NothingToMove(a: State)
    requires a.catalog == map[]
    ensures Repacked(a, a)
  {
    assert a.cache.halves - {} == a.cache.halves && a.cache.shared - {} == a.cache.shared;
    assert LiveSlabs(a) == {} && LiveRefs(a) == {} && HashesOf({}) == {};
    assert Filed(a.ledger, {}) - {} == a.ledger;
  }

  /** Every record at a fresh object on a slab of this device's, and all else that changes with that. */
  ghost predicate Repacked(a: State, w: State) {
    var gone := LiveSlabs(a) - LiveSlabs(w);
    && (forall id <- w.catalog :: w.catalog[id].ref !in a.placed) && OwnsAll(w)
    && w.objects == a.objects - LiveRefs(a) + LiveRefs(w)
    && w.pinned == a.pinned + LiveSlabs(w) - gone
    && w.ledger == Filed(a.ledger, LiveSlabs(w)) - gone
    && w.cache == LocationCache(a.cache.halves - LiveRefs(a), a.cache.shared - HashesOf(gone))
    && w.queue == a.queue
    && Stranded(w) - Stranded(a) == LeftOn(a, w)
  }

  function NewRefs(moves: Moves): set<Ref> { set id <- moves :: moves[id].ref }

  /** What each stage leaves: written, filed and moved over, old objects deleted, old slabs released. */
  ghost predicate Staged(a: State, written: State, moved: State, w: State, moves: Moves) {
    && written == a.(placed := written.placed, pinned := a.pinned + SlabsOf(moves), objects := a.objects + NewRefs(moves))
    && moved == written.(catalog := moved.catalog, ledger := Filed(a.ledger, SlabsOf(moves)),
                         cache := WithoutHalves(a.cache, LiveRefs(a)))
    && ReleasedOnly(moved.(objects := moved.objects - LiveRefs(a)), w, LiveSlabs(a) - SlabsOf(moves))
  }

  lemma Completed(env: Env, a: State, written: State, moved: State, w: State, moves: Moves)
    requires Safe(env, a) && Safe(env, w) && Retired(env, a, w, moves) && OwnsAll(a) && Within(RepackBounds(a), a, w)
    requires Staged(a, written, moved, w, moves)
    ensures Repacked(a, w)
  {
    MovedAway(env, a, w, moves);
    StagedFields(a, written, moved, w, moves);
    StrandsExactly(env, a, w, moves);
    MovedRefs(a, w, moves);
    OwnsNew(a, w, moves);
    ObjectsMoved(a.objects, LiveRefs(a), LiveRefs(w));
  }

  lemma ObjectsMoved(objects: set<Ref>, stale: set<Ref>, refs: set<Ref>)
    requires refs !! stale
    ensures objects + refs - stale == objects - stale + refs
  {
  }

  lemma StagedFields(a: State, written: State, moved: State, w: State, moves: Moves)
    requires Staged(a, written, moved, w, moves)
    ensures var gone := LiveSlabs(a) - SlabsOf(moves);
      && w.objects == a.objects + NewRefs(moves) - LiveRefs(a)
      && w.pinned == a.pinned + SlabsOf(moves) - gone
      && w.ledger == Filed(a.ledger, SlabsOf(moves)) - gone
      && w.cache == LocationCache(a.cache.halves - LiveRefs(a), a.cache.shared - HashesOf(gone))
      && w.queue == a.queue
  {
  }

  lemma MovedRefs(a: State, w: State, moves: Moves)
    requires moves.Keys == a.catalog.Keys && Everywhere(a, w, moves)
    ensures LiveRefs(w) == NewRefs(moves)
  {
    forall r ensures r in LiveRefs(w) <==> r in NewRefs(moves) {
      if r in NewRefs(moves) {
        var id :| id in moves && moves[id].ref == r;
        assert w.catalog[id].ref == r;
      }
    }
  }

  lemma OwnsNew(a: State, w: State, moves: Moves)
    requires w.ledger == Filed(a.ledger, SlabsOf(moves)) - (LiveSlabs(a) - SlabsOf(moves))
    requires LiveSlabs(w) == SlabsOf(moves)
    ensures OwnsAll(w)
  {
  }

  method MoveAll(d: Device, es: seq<Entry>, up: bool, n: nat, ghost a: State, ghost b: Bounds)
    returns (out: Outcome, ghost moved: Moves, ghost done: set<Id>)
    requires d.Valid() && d.world == a && Trace(d.passed, n, a, b) && Within(b, a, a) && OwnsAll(a) && b == RepackBounds(a)
    requires Lists(a.catalog, a.catalog.Keys, es) && es != []
    modifies d
    ensures d.Valid() && Trace(d.passed, n, a, b) && old(d.passed) <= d.passed && !out.Refused?
    ensures done <= moved.Keys && d.world.catalog == Recatalogued(a.catalog, moved, done)
    ensures d.world.bodies == a.bodies
    ensures out.Done? ==> Repacked(a, d.world)
    ensures d.steady && up ==> out.Done?
    ensures !up ==> out.Failed? && d.world == a
  {
    var stale, from := LiveRefs(d.world), LiveSlabs(d.world);
    done := {};
    var ok, moves := WriteAll(d, es, up, n, a, b);
    moved := moves;
    assert Recatalogued(a.catalog, moved, {}) == a.catalog;
    if !ok {
      return Failed, moved, done;
    }
    out, done := MoveOver(d, moves, stale, from, n, a, b);
  }

  /** What follows the write: the catalog moved over, then the old objects and slabs gone. */
  method MoveOver(d: Device, moves: Moves, stale: set<Ref>, from: set<SlabId>, n: nat, ghost a: State, ghost b: Bounds)
    returns (out: Outcome, ghost done: set<Id>)
    requires d.Valid() && Trace(d.passed, n, a, b) && Within(b, a, d.world)
    requires Safe(d.env, a) && OwnsAll(a) && b == RepackBounds(a) && stale == LiveRefs(a) && from == LiveSlabs(a)
    requires d.world == a.(placed := d.world.placed, pinned := a.pinned + SlabsOf(moves),
                           objects := a.objects + NewRefs(moves))
    requires Homes(d.env, a, d.world, moves) && Added(a, d.world, moves)
    modifies d
    ensures d.Valid() && Trace(d.passed, n, a, b) && old(d.passed) <= d.passed && !out.Refused?
    ensures done <= moves.Keys && d.world.catalog == Recatalogued(a.catalog, moves, done)
    ensures d.world.bodies == a.bodies
    ensures out.Done? ==> Repacked(a, d.world)
    ensures d.steady ==> out.Done?
  {
    ghost var w := d.world;
    var ok;
    ok, done := Recatalogue(d, moves, n, a, b);
    if !ok {
      return Failed, done;
    }
    ghost var there := d.world;
    out := Retire(d, moves, stale, from - SlabsOf(moves), n, a, w, b);
    if out.Done? {
      Completed(d.env, a, w, there, d.world, moves);
    }
  }

  /** Reads every record's bytes and writes exactly those bytes again. */
  method WriteAll(d: Device, es: seq<Entry>, up: bool, n: nat, ghost a: State, ghost b: Bounds)
    returns (ok: bool, moves: Moves)
    requires d.Valid() && d.world == a && Trace(d.passed, n, a, b) && Within(b, a, a) && Lists(a.catalog, a.catalog.Keys, es)
    requires es != []
    modifies d
    ensures d.Valid() && Trace(d.passed, n, a, b) && Within(b, a, d.world) && old(d.passed) <= d.passed
    ensures d.world == a.(placed := d.world.placed, pinned := d.world.pinned, objects := d.world.objects)
    ensures ok ==> Homes(d.env, a, d.world, moves) && Added(a, d.world, moves)
    ensures ok ==> d.world.pinned == a.pinned + SlabsOf(moves) && d.world.objects == a.objects + NewRefs(moves)
    ensures d.steady && up ==> ok
    ensures !up ==> !ok && d.world == a
  {
    moves := map[];
    var payloads := ReadAll(d, es, up);
    if payloads.None? {
      return false, moves;
    }
    forall p <- payloads.value ensures Genuine(d.env, p) {
      var i :| 0 <= i < |es| && payloads.value[i] == p;
    }
    var written;
    ok, written := d.PutBatch(payloads.value, n, a, b);
    if !ok {
      return;
    }
    moves := MovesOf(es, written);
    BatchIsHome(d.env, a, d.world, es, written, payloads.value, moves);
    BatchIsMoves(es, written, moves);
    BatchIsListed(d.env, a, d.world, moves);
  }

  lemma BatchIsMoves(es: seq<Entry>, written: seq<Written>, moves: Moves)
    requires |written| == |es|
    requires forall i :: 0 <= i < |es| ==> es[i].id in moves && moves[es[i].id] == written[i]
    requires forall id <- moves :: exists i :: 0 <= i < |es| && es[i].id == id
    ensures SlabsOf(moves) == SlabsWritten(written)
  {
    forall s ensures s in SlabsOf(moves) <==> s in SlabsWritten(written) {
      if s in SlabsOf(moves) {
        var id :| id in moves && moves[id].slab == s;
        var i :| 0 <= i < |es| && es[i].id == id;
        assert written[i] in written;
      }
      if x :| x in written && x.slab == s {
        var i :| 0 <= i < |written| && written[i] == x;
        assert moves[es[i].id].slab == s;
      }
    }
  }

  lemma BatchIsListed(env: Env, a: State, w: State, moves: Moves)
    requires Homes(env, a, w, moves) && Added(a, w, moves)
    ensures w.objects == a.objects + NewRefs(moves)
  {
    forall id <- moves ensures moves[id].ref in w.objects {
      assert HomeOf(env, a, w, id, moves[id]);
    }
  }

  /** Forgetting one of two records that share a slab and then repacking is one way to strand an object. */
  lemma ForgettingMakesBystanders(env: Env, w: State, gone: Id, kept: Id)
    requires Safe(env, w) && gone in w.catalog && kept in w.catalog && gone != kept
    requires w.catalog[gone].slab == w.catalog[kept].slab && RefsDiffer(w.catalog)
    ensures w.catalog[gone].ref in Bystanders(w.(catalog := w.catalog - {gone}))
  {
    assert Stored(env, w, w.catalog[gone]);
    var next := w.(catalog := w.catalog - {gone});
    assert next.catalog[kept].slab in LiveSlabs(next);
    forall id <- next.catalog ensures next.catalog[id].ref != w.catalog[gone].ref {
      assert id in w.catalog && id != gone;
    }
  }
}
