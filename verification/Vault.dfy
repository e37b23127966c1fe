/**
 * The vault over the network: every operation as the sequence of durable steps it takes, any of which
 * may fail with or without its effect. `passed` keeps every durable state gone through, so what holds
 * of all of it holds wherever the process dies.
 */
module Vault {
  import opened Bytes
  import opened Records
  import opened World
  import opened Ledger
  import opened Sweeping
  import opened ChangeFeed
  import Queue
  import Envelope

  /**
   * What an operation may do on its way: drop records, delete objects, release slabs, strand objects. A
   * `homed` one points no entry at a new object whose slab is not in the ledger as this device's.
   */
  datatype Bounds = Bounds(dropped: set<Id>, deleted: set<Ref>, released: set<SlabId>, stranded: set<Ref>,
                           homed: bool := false)

  const NOTHING := Bounds({}, {}, {}, {})

  ghost predicate Within(b: Bounds, a: State, w: State) {
    && a.catalog.Keys - b.dropped <= w.catalog.Keys && a.queue.Keys <= Holding(w)
    && a.objects - w.objects <= b.deleted
    && a.pinned - w.pinned <= b.released
    && Stranded(w) <= Stranded(a) + b.stranded
    && Preserved(a, w)
    && (b.homed ==> Homed(a, w))
  }

  /** Every entry is at an object there already was, or on a slab this device may release. */
  ghost predicate Homed(a: State, w: State) {
    forall id <- w.catalog :: w.catalog[id].ref in a.placed || Owned(w, w.catalog[id].slab)
  }

  /** What a ref denotes never changes. */
  ghost predicate Preserved(a: State, w: State) {
    forall r <- a.placed :: r in w.placed && w.placed[r] == a.placed[r]
  }

  /** Every state passed since position `n`, when the state was `a`, stayed within the bounds. */
  ghost predicate Trace(passed: seq<State>, n: nat, a: State, b: Bounds) {
    n <= |passed| && forall i :: n <= i < |passed| ==> Within(b, a, passed[i])
  }

  lemma Itself(b: Bounds, a: State)
    requires b.homed ==> Homed(a, a)
    ensures Within(b, a, a)
  {
  }

  /** Where an operation stops is one of the states it passed, or where it began. */
  lemma LastWithin(passed: seq<State>, n: nat, a: State, b: Bounds, w: State)
    requires Trace(passed, n, a, b) && passed != [] && passed[|passed| - 1] == w && n > 0
    requires Within(b, a, a) && (n == |passed| ==> w == a)
    ensures Within(b, a, w)
  {
  }

  /** One operation that drops nothing after another: what the first kept, the second keeps. */
  lemma TraceThrough(before: seq<State>, passed: seq<State>, n: nat, a: State, w: State)
    requires before <= passed && Trace(before, n, a, NOTHING) && Within(NOTHING, a, w)
    requires Trace(passed, |before|, w, NOTHING)
    ensures Trace(passed, n, a, NOTHING)
  {
    forall i | n <= i < |passed| ensures Within(NOTHING, a, passed[i]) {
      if i < |before| {
        assert passed[i] == before[i];
      } else {
        WithinThrough(a, w, passed[i]);
      }
    }
  }

  lemma WithinThrough(a: State, w: State, next: State)
    requires Within(NOTHING, a, w) && Within(NOTHING, w, next)
    ensures Within(NOTHING, a, next)
  {
  }

  // ---------- single steps stay within bounds ----------

  lemma UploadWithin(env: Env, b: Bounds, a: State, w: State, r: Ref, p: Placement)
    requires Safe(env, w) && Within(b, a, w) && r !in w.placed
    ensures Within(b, a, w.(placed := w.placed[r := p]))
  {
  }

  lemma PinWithin(b: Bounds, a: State, w: State, s: SlabId)
    requires Within(b, a, w)
    ensures Within(b, a, w.(pinned := w.pinned + {s}))
  {
  }

  lemma ListWithin(b: Bounds, a: State, w: State, r: Ref)
    requires Within(b, a, w) && r in w.placed && w.placed[r].slab in w.pinned
    ensures Within(b, a, w.(objects := w.objects + {r}))
  {
  }

  lemma DeleteWithin(b: Bounds, a: State, w: State, r: Ref)
    requires Within(b, a, w) && r in b.deleted
    ensures Within(b, a, w.(objects := w.objects - {r}))
  {
  }

  /** The readable objects on a slab. */
  function OnSlab(w: State, s: SlabId): set<Ref> { set r <- w.objects | Readable(w, r) && w.placed[r].slab == s }

  /** Releasing a slab strands exactly the objects still listed on it. */
  lemma UnpinStrands(w: State, s: SlabId)
    ensures Stranded(w.(pinned := w.pinned - {s})) == Stranded(w) + OnSlab(w, s)
    ensures Stranded(w) !! OnSlab(w, s)
  {
    var next := w.(pinned := w.pinned - {s});
    forall r ensures r in Stranded(next) <==> r in Stranded(w) || r in OnSlab(w, s) {
    }
  }

  lemma UnpinWithin(b: Bounds, a: State, w: State, s: SlabId)
    requires Within(b, a, w) && s in b.released && OnSlab(w, s) <= b.stranded
    ensures Within(b, a, w.(pinned := w.pinned - {s}))
  {
    UnpinStrands(w, s);
  }

  /** Only what this device keeps has changed. */
  ghost predicate OnDevice(w: State, next: State) {
    next == w.(catalog := next.catalog, ledger := next.ledger, bodies := next.bodies, cache := next.cache,
               queue := next.queue)
  }

  lemma LocalWithin(b: Bounds, a: State, w: State, next: State)
    requires Within(b, a, w) && OnDevice(w, next)
    requires a.catalog.Keys - b.dropped <= next.catalog.Keys && a.queue.Keys <= Holding(next)
    requires b.homed ==> Homed(a, next)
    ensures Within(b, a, next)
  {
    assert Stranded(next) == Stranded(w);
  }

  datatype Written = Written(ref: Ref, slab: SlabId)

  function SlabsWritten(written: seq<Written>): set<SlabId> { set x <- written :: x.slab }

  lemma OneMoreUnder(written: seq<Written>, i: nat)
    requires i < |written|
    ensures SlabsWritten(written[..i + 1]) == SlabsWritten(written[..i]) + {written[i].slab}
    ensures SlabsWritten(written[..i + 1]) <= SlabsWritten(written) && written[..|written|] == written
  {
    assert written[..i + 1] == written[..i] + [written[i]];
    assert forall x <- written[..i + 1] :: x in written;
  }

  lemma {:induction false} RefBound(s: set<Ref>) returns (n: nat)
    ensures forall r <- s :: |r.bytes| < n
    decreases |s|
  {
    n := 0;
    if s != {} {
      var r :| r in s;
      var m := RefBound(s - {r});
      n := if |r.bytes| < m then m else |r.bytes| + 1;
      assert forall x <- s :: x == r || x in s - {r};
    }
  }

  lemma FreshRef(s: set<Ref>)
    ensures exists r: Ref :: r !in s
  {
    var n := RefBound(s);
    assert Ref(seq(n, _ => 0)) !in s;
  }

  class Device {
    const env: Env
    /** No call fails: what an operation does then is what it is for. */
    const steady: bool
    var world: State
    var passed: seq<State>

    ghost predicate Valid()
      reads this
    {
      && Sound(env) && Safe(env, world)
      && passed != [] && passed[|passed| - 1] == world
      && forall w <- passed :: Safe(env, w)
    }

    constructor (env: Env, world: State, steady: bool)
      requires Sound(env) && Safe(env, world)
      ensures Valid() && this.env == env && this.world == world && passed == [world] && this.steady == steady
    {
      this.env, this.world, passed, this.steady := env, world, [world], steady;
    }

    // ---------- one durable step ----------

    method Commit(next: State)
      requires Valid() && Safe(env, next)
      modifies this
      ensures Valid() && world == next && passed == old(passed) + [next]
    {
      world, passed := next, passed + [next];
    }

    /** A call that may fail before or after taking effect. */
    method Attempt(next: State, n: nat, ghost a: State, ghost b: Bounds) returns (ok: bool)
      requires Valid() && Safe(env, next) && Trace(passed, n, a, b) && Within(b, a, next)
      modifies this
      ensures Valid() && Trace(passed, n, a, b) && (world == next || world == old(world)) && (ok ==> world == next)
      ensures old(passed) <= passed && (steady ==> ok)
    {
      var reached := *;
      ok := false;
      if reached || steady {
        Commit(next);
        ok := *;
        ok := ok || steady;
      }
    }

    // ---------- writing a batch ----------

    /** Hands out a fresh ref for each payload, on whatever slab the network packs it into. */
    method Upload(payloads: seq<Bytes>, n: nat, ghost a: State, ghost b: Bounds) returns (written: seq<Written>)
      requires Valid() && Trace(passed, n, a, b) && Within(b, a, world)
      requires forall p <- payloads :: Genuine(env, p)
      modifies this
      ensures Valid() && Trace(passed, n, a, b) && Within(b, a, world) && old(passed) <= passed
      ensures world == old(world).(placed := world.placed) && Preserved(old(world), world)
      ensures |written| == |payloads| && Placed(old(world), world, written, payloads)
    {
      written := [];
      for i := 0 to |payloads|
        invariant Valid() && Trace(passed, n, a, b) && Within(b, a, world) && old(passed) <= passed
        invariant world == old(world).(placed := world.placed) && Preserved(old(world), world)
        invariant |written| == i && Placed(old(world), world, written, payloads[..i])
      {
        FreshRef(world.placed.Keys);
        var r: Ref :| r !in world.placed;
        var slab: SlabId := *;
        var p := Placement(slab, payloads[i]);
        UploadedSafe(env, world, r, p);
        UploadWithin(env, b, a, world, r, p);
        PlacedNext(old(world), world, written, payloads[..i], r, p);
        assert payloads[..i + 1] == payloads[..i] + [payloads[i]];
        Commit(world.(placed := world.placed[r := p]));
        written := written + [Written(r, slab)];
      }
      assert payloads[..|payloads|] == payloads;
    }

    method PinSlabs(written: seq<Written>, n: nat, ghost a: State, ghost b: Bounds) returns (ok: bool)
      requires Valid() && Trace(passed, n, a, b) && Within(b, a, world)
      modifies this
      ensures Valid() && Trace(passed, n, a, b) && Within(b, a, world) && old(passed) <= passed
      ensures world == old(world).(pinned := world.pinned) && old(world).pinned <= world.pinned
      ensures world.pinned <= old(world).pinned + SlabsWritten(written)
      ensures ok ==> world.pinned == old(world).pinned + SlabsWritten(written)
      ensures steady ==> ok
    {
      for i := 0 to |written|
        invariant Valid() && Trace(passed, n, a, b) && Within(b, a, world) && old(passed) <= passed
        invariant world == old(world).(pinned := world.pinned)
        invariant world.pinned == old(world).pinned + SlabsWritten(written[..i])
      {
        OneMoreUnder(written, i);
        PinnedSafe(env, world, written[i].slab);
        PinWithin(b, a, world, written[i].slab);
        ok := Attempt(world.(pinned := world.pinned + {written[i].slab}), n, a, b);
        if !ok {
          return;
        }
      }
      ok := true;
    }

    method PinObjects(written: seq<Written>, n: nat, ghost a: State, ghost b: Bounds) returns (ok: bool)
      requires Valid() && Trace(passed, n, a, b) && Within(b, a, world)
      requires forall x <- written :: x.ref in world.placed && world.placed[x.ref].slab in world.pinned
      modifies this
      ensures Valid() && Trace(passed, n, a, b) && Within(b, a, world) && old(passed) <= passed
      ensures world == old(world).(objects := world.objects) && old(world).objects <= world.objects
      ensures forall r <- world.objects :: r in old(world).objects || exists x <- written :: x.ref == r
      ensures ok ==> forall x <- written :: x.ref in world.objects
      ensures steady ==> ok
    {
      for i := 0 to |written|
        invariant Valid() && Trace(passed, n, a, b) && Within(b, a, world) && old(passed) <= passed
        invariant world == old(world).(objects := world.objects) && old(world).objects <= world.objects
        invariant forall r <- world.objects :: r in old(world).objects || exists x <- written :: x.ref == r
        invariant forall x <- written[..i] :: x.ref in world.objects
      {
        assert written[i] in written;
        ListedSafe(env, world, written[i].ref);
        ListWithin(b, a, world, written[i].ref);
        ok := Attempt(world.(objects := world.objects + {written[i].ref}), n, a, b);
        if !ok {
          return;
        }
      }
      ok := true;
    }

    /** Uploads, pins the slabs, then pins the objects: nothing is listed before its slab is held. */
    method PutBatch(payloads: seq<Bytes>, n: nat, ghost a: State, ghost b: Bounds)
      returns (ok: bool, written: seq<Written>)
      requires Valid() && Trace(passed, n, a, b) && Within(b, a, world)
      requires forall p <- payloads :: Genuine(env, p)
      modifies this
      ensures Valid() && Trace(passed, n, a, b) && Within(b, a, world) && old(passed) <= passed
      ensures Grown(old(world), world, written)
      ensures ok ==> |written| == |payloads| && Placed(old(world), world, written, payloads)
      ensures ok ==> forall x <- written :: Readable(world, x.ref)
      ensures ok ==> world.pinned == old(world).pinned + SlabsWritten(written)
      ensures world.pinned <= old(world).pinned + SlabsWritten(written)
      ensures steady ==> ok
    {
      ok, written := *, [];
      if !ok && !steady {
        return;
      }
      written := Upload(payloads, n, a, b);
      ok := PinSlabs(written, n, a, b);
      if !ok {
        return;
      }
      ok := PinObjects(written, n, a, b);
    }

    // ---------- local steps ----------

    /** One write to a file or a table of this device's. */
    method WriteLocal(next: State, n: nat, ghost a: State, ghost b: Bounds) returns (ok: bool)
      requires Valid() && Trace(passed, n, a, b) && Within(b, a, world)
      requires OnDevice(world, next) && Safe(env, next)
      requires a.catalog.Keys - b.dropped <= next.catalog.Keys && a.queue.Keys <= Holding(next)
      requires b.homed ==> Homed(a, next)
      modifies this
      ensures Valid() && Trace(passed, n, a, b) && Within(b, a, world) && old(passed) <= passed
      ensures (world == next || world == old(world)) && (ok ==> world == next) && (steady ==> ok)
    {
      LocalWithin(b, a, world, next);
      ok := Attempt(next, n, a, b);
    }

    /** Appends one entry to the catalog. */
    method Catalog(e: Entry, n: nat, ghost a: State, ghost b: Bounds) returns (ok: bool)
      requires Valid() && Trace(passed, n, a, b) && Within(b, a, world) && Stored(env, world, e)
      requires b.homed ==> Owned(world, e.slab)
      modifies this
      ensures Valid() && Trace(passed, n, a, b) && Within(b, a, world) && old(passed) <= passed
      ensures world == old(world) || world == old(world).(catalog := old(world).catalog[e.id := e])
      ensures ok ==> world == old(world).(catalog := old(world).catalog[e.id := e])
      ensures steady ==> ok
    {
      CataloguedSafe(env, world, e);
      ok := WriteLocal(world.(catalog := world.catalog[e.id := e]), n, a, b);
    }

    /** Files a slab in the ledger under an origin. */
    method File(slab: SlabId, origin: Origin, n: nat, ghost a: State, ghost b: Bounds) returns (ok: bool)
      requires Valid() && Trace(passed, n, a, b) && Within(b, a, world)
      modifies this
      ensures Valid() && Trace(passed, n, a, b) && Within(b, a, world) && old(passed) <= passed
      ensures world == old(world)
        || world == old(world).(ledger := TrackedWith(old(world).ledger, slab, origin))
      ensures ok ==> world == old(world).(ledger := TrackedWith(old(world).ledger, slab, origin))
      ensures steady ==> ok
    {
      AccountedSafe(env, world, TrackedWith(world.ledger, slab, origin), world.cache, world.queue);
      ok := WriteLocal(world.(ledger := TrackedWith(world.ledger, slab, origin)), n, a, b);
    }

    /** Replaces what the location cache holds. */
    method SetCache(cache: LocationCache, n: nat, ghost a: State, ghost b: Bounds) returns (ok: bool)
      requires Valid() && Trace(passed, n, a, b) && Within(b, a, world) && CacheTrue(env.locator, cache)
      modifies this
      ensures Valid() && Trace(passed, n, a, b) && Within(b, a, world) && old(passed) <= passed
      ensures world == old(world) || world == old(world).(cache := cache)
      ensures ok ==> world == old(world).(cache := cache)
      ensures steady ==> ok
    {
      AccountedSafe(env, world, world.ledger, cache, world.queue);
      ok := WriteLocal(world.(cache := cache), n, a, b);
    }

    /** Leaves the queue holding these rows, when every row lost belongs to a catalogued record. */
    method SetQueue(rows: Queue.Table, n: nat, ghost a: State, ghost b: Bounds) returns (ok: bool)
      requires Valid() && Trace(passed, n, a, b) && Within(b, a, world)
      requires QueueTrue(env, rows) && world.queue.Keys <= rows.Keys + world.catalog.Keys
      modifies this
      ensures Valid() && Trace(passed, n, a, b) && Within(b, a, world) && old(passed) <= passed
      ensures world == old(world) || world == old(world).(queue := rows)
      ensures ok ==> world == old(world).(queue := rows)
      ensures steady ==> ok
    {
      AccountedSafe(env, world, world.ledger, world.cache, rows);
      ok := WriteLocal(world.(queue := rows), n, a, b);
    }

    /** Files one more slab as pinned here. */
    method FileNext(s: SlabId, n: nat, ghost a: State, ghost b: Bounds, ghost w: State, ghost filed: set<SlabId>)
      returns (ok: bool, ghost after: set<SlabId>)
      requires Valid() && Trace(passed, n, a, b) && Within(b, a, world) && FiledOnly(w, world, filed)
      modifies this
      ensures Valid() && Trace(passed, n, a, b) && Within(b, a, world) && old(passed) <= passed
      ensures FiledOnly(w, world, after) && filed <= after <= filed + {s} && (ok ==> s in after) && (steady ==> ok)
    {
      after := filed;
      FiledNext(w.ledger, filed, s);
      ghost var before := world;
      ok := File(s, Pinned, n, a, b);
      if world != before || ok {
        after := filed + {s};
      }
    }

    /** Files these slabs as pinned here, one call each: some of them, and all when no call fails. */
    method FileAll(slabs: set<SlabId>, n: nat, ghost a: State, ghost b: Bounds) returns (ok: bool)
      requires Valid() && Trace(passed, n, a, b) && Within(b, a, world)
      modifies this
      ensures Valid() && Trace(passed, n, a, b) && Within(b, a, world) && old(passed) <= passed
      ensures exists filed :: filed <= slabs && FiledOnly(old(world), world, filed)
      ensures ok ==> FiledOnly(old(world), world, slabs)
      ensures steady ==> ok
    {
      var left := slabs;
      ghost var w, filed: set<SlabId> := world, {};
      FiledNone(w);
      while left != {}
        invariant Valid() && Trace(passed, n, a, b) && Within(b, a, world) && old(passed) <= passed
        invariant left <= slabs && slabs - left <= filed <= slabs && FiledOnly(w, world, filed)
        decreases left
      {
        var s :| s in left;
        ok, filed := FileNext(s, n, a, b, w, filed);
        if !ok {
          return;
        }
        left := left - {s};
      }
      ok := true;
      assert filed == slabs;
    }

    // ---------- destroying ----------

    /** Deletes objects, several at a time and in no fixed order: a failed call leaves any part of it done. */
    method DeleteObjects(refs: set<Ref>, n: nat, ghost a: State, ghost b: Bounds) returns (ok: bool)
      requires Valid() && Trace(passed, n, a, b) && Within(b, a, world)
      requires refs <= b.deleted && refs !! LiveRefs(world)
      modifies this
      ensures Valid() && Trace(passed, n, a, b) && Within(b, a, world) && old(passed) <= passed
      ensures world == old(world).(objects := world.objects)
      ensures old(world).objects - refs <= world.objects <= old(world).objects
      ensures ok ==> world.objects == old(world).objects - refs
      ensures steady ==> ok
    {
      ok := true;
      var left := refs;
      while left != {}
        invariant Valid() && Trace(passed, n, a, b) && Within(b, a, world) && old(passed) <= passed && left <= refs
        invariant world == old(world).(objects := world.objects)
        invariant old(world).objects - refs <= world.objects <= old(world).objects
        invariant ok ==> world.objects == old(world).objects - (refs - left)
        invariant steady ==> ok
        decreases left
      {
        var r :| r in left;
        left := left - {r};
        DeletedSafe(env, world, r);
        DeleteWithin(b, a, world, r);
        var done := Attempt(world.(objects := world.objects - {r}), n, a, b);
        ok := ok && done;
        if !ok {
          var stopped := *;
          if stopped {
            return;
          }
        }
      }
    }

    /** Releases a slab, then drops it from the ledger, then forgets the location half its objects share. */
    method Unpin(slab: SlabId, n: nat, ghost a: State, ghost b: Bounds) returns (ok: bool)
      requires Valid() && Trace(passed, n, a, b) && Within(b, a, world)
      requires slab in b.released && slab !in LiveSlabs(world) && OnSlab(world, slab) <= b.stranded
      modifies this
      ensures Valid() && Trace(passed, n, a, b) && Within(b, a, world) && old(passed) <= passed
      ensures world == old(world).(pinned := world.pinned, ledger := world.ledger, cache := world.cache)
      ensures old(world).pinned - {slab} <= world.pinned <= old(world).pinned
      ensures world.ledger == old(world).ledger || (world.ledger == old(world).ledger - {slab} && slab !in world.pinned)
      ensures world.cache == old(world).cache || world.cache == WithoutShared(old(world).cache, slab.hash)
      ensures ok ==> world == old(world).(pinned := old(world).pinned - {slab}, ledger := old(world).ledger - {slab},
                                          cache := WithoutShared(old(world).cache, slab.hash))
      ensures steady ==> ok
    {
      UnpinnedSafe(env, world, slab);
      UnpinWithin(b, a, world, slab);
      ok := Attempt(world.(pinned := world.pinned - {slab}), n, a, b);
      if !ok {
        return;
      }
      ok := ForgetSlab(slab, n, a, b);
    }

    /** What this device keeps of a slab it has released: its place in the ledger, then its shared half. */
    method ForgetSlab(slab: SlabId, n: nat, ghost a: State, ghost b: Bounds) returns (ok: bool)
      requires Valid() && Trace(passed, n, a, b) && Within(b, a, world) && slab !in LiveSlabs(world)
      modifies this
      ensures Valid() && Trace(passed, n, a, b) && Within(b, a, world) && old(passed) <= passed
      ensures world == old(world).(ledger := world.ledger, cache := world.cache)
      ensures world.ledger == old(world).ledger || world.ledger == old(world).ledger - {slab}
      ensures world.cache == old(world).cache || world.cache == WithoutShared(old(world).cache, slab.hash)
      ensures ok ==> world == old(world).(ledger := old(world).ledger - {slab},
                                          cache := WithoutShared(old(world).cache, slab.hash))
      ensures steady ==> ok
    {
      AccountedSafe(env, world, world.ledger - {slab}, world.cache, world.queue);
      ok := WriteLocal(world.(ledger := world.ledger - {slab}), n, a, b);
      if !ok {
        return;
      }
      ok := SetCache(WithoutShared(world.cache, slab.hash), n, a, b);
    }

    // ---------- reading ----------

    /** A read over the network: fails at will, and always when the object cannot be opened. */
    method Download(r: Ref, up: bool) returns (payload: Option<Bytes>)
      requires Valid()
      ensures payload.Some? <==> up && Readable(world, r)
      ensures payload.Some? ==> payload.value == world.placed[r].payload
    {
      if up && Readable(world, r) {
        return Some(world.placed[r].payload);
      }
      payload := None;
    }

    /** Walks the account's change feed: every object that opens, once. */
    method Listing() returns (out: seq<Listed>)
      requires Valid()
      ensures forall o <- out :: Readable(world, o.ref) && o.slab == world.placed[o.ref].slab
      ensures forall r :: Readable(world, r) ==> exists o <- out :: o.ref == r
    {
      var feed := CurrentFeed(world);
      var superseded, unreadable;
      out, superseded, unreadable := WalkObjects(feed);
      WalkedAreReadable(feed, world);
    }

    method TrackedSlabs() returns (out: seq<Tracked>)
      ensures Ours(out) == set s <- world.ledger | Releasable(world.ledger[s])
      ensures |out| == |world.ledger|
      ensures forall t <- out :: t.slab in world.ledger && world.ledger[t.slab] == t.origin
    {
      out := [];
      var left := world.ledger.Keys;
      while left != {}
        invariant left <= world.ledger.Keys && |out| + |left| == |world.ledger.Keys|
        invariant forall t <- out :: t.slab in world.ledger && world.ledger[t.slab] == t.origin
        invariant forall s <- world.ledger.Keys - left :: Tracked(s, world.ledger[s]) in out
        decreases left
      {
        var s :| s in left;
        left := left - {s};
        out := out + [Tracked(s, world.ledger[s])];
      }
    }

    /** The catalog's entries, each record once. */
    method Entries() returns (es: seq<Entry>)
      requires Valid()
      ensures |es| == |world.catalog| && Lists(world.catalog, world.catalog.Keys, es)
    {
      es := ListEntries(world.catalog);
    }
  }

  /** These slabs have been released and dropped from the ledger with the halves they share, and nothing else done. */
  ghost predicate ReleasedOnly(before: State, w: State, gone: set<SlabId>) {
    w == before.(pinned := before.pinned - gone, ledger := before.ledger - gone,
                 cache := before.cache.(shared := before.cache.shared - HashesOf(gone)))
  }

  lemma NoneReleased(w: State)
    ensures ReleasedOnly(w, w, {})
  {
    assert HashesOf({}) == {};
    assert w.pinned - {} == w.pinned && w.ledger - {} == w.ledger && w.cache.shared - {} == w.cache.shared;
  }

  lemma OneReleased(before: State, w: State, next: State, gone: set<SlabId>, s: SlabId)
    requires ReleasedOnly(before, w, gone)
    requires next == w.(pinned := w.pinned - {s}, ledger := w.ledger - {s}, cache := WithoutShared(w.cache, s.hash))
    ensures ReleasedOnly(before, next, gone + {s})
  {
    assert HashesOf(gone + {s}) == HashesOf(gone) + {s.hash};
    assert before.cache.shared - HashesOf(gone) - {s.hash} == before.cache.shared - HashesOf(gone + {s});
    assert before.ledger - gone - {s} == before.ledger - (gone + {s});
  }

  function HashesOf(slabs: set<SlabId>): set<Envelope.Hash> { set s <- slabs :: s.hash }

  function WithoutShared(c: LocationCache, h: Envelope.Hash): LocationCache { c.(shared := c.shared - {h}) }

  /** Only the ledger has changed, and only by filing these slabs as pinned here. */
  ghost predicate FiledOnly(before: State, w: State, filed: set<SlabId>) {
    w == before.(ledger := Filed(before.ledger, filed))
  }

  lemma FiledNone(w: State)
    ensures FiledOnly(w, w, {})
  {
    assert Filed(w.ledger, {}) == w.ledger;
  }

  lemma FiledNext(ledger: map<SlabId, Origin>, filed: set<SlabId>, s: SlabId)
    ensures TrackedWith(Filed(ledger, filed), s, Pinned) == Filed(ledger, filed + {s})
  {
  }

  /** `es` lists what the catalog has for these records, each once. */
  ghost predicate Lists(catalog: map<Id, Entry>, ids: set<Id>, es: seq<Entry>) {
    && (forall e <- es :: e.id in ids && e.id in catalog && catalog[e.id] == e)
    && (forall id <- ids :: id in catalog && catalog[id] in es)
    && (forall i, j :: 0 <= i < j < |es| ==> es[i].id != es[j].id)
  }

  method ListEntries(catalog: map<Id, Entry>) returns (es: seq<Entry>)
    requires forall id <- catalog :: catalog[id].id == id
    ensures |es| == |catalog| && Lists(catalog, catalog.Keys, es)
  {
    es := [];
    var left := catalog.Keys;
    while left != {}
      invariant left <= catalog.Keys && |es| + |left| == |catalog.Keys|
      invariant Lists(catalog, catalog.Keys - left, es)
      decreases left
    {
      var id :| id in left;
      ListNext(catalog, catalog.Keys - left, es, id);
      assert catalog.Keys - (left - {id}) == (catalog.Keys - left) + {id};
      left := left - {id};
      es := es + [catalog[id]];
    }
    assert catalog.Keys - {} == catalog.Keys;
  }

  lemma ListNext(catalog: map<Id, Entry>, ids: set<Id>, es: seq<Entry>, id: Id)
    requires Lists(catalog, ids, es) && id in catalog && id !in ids && catalog[id].id == id
    ensures Lists(catalog, ids + {id}, es + [catalog[id]])
  {
  }

  /** `written` are distinct fresh refs denoting these payloads. */
  ghost predicate Placed(before: State, w: State, written: seq<Written>, payloads: seq<Bytes>)
    requires |written| == |payloads|
  {
    && (forall i :: 0 <= i < |written| ==>
          && written[i].ref !in before.placed && written[i].ref in w.placed
          && w.placed[written[i].ref] == Placement(written[i].slab, payloads[i]))
    && (forall i, j :: 0 <= i < j < |written| ==> written[i].ref != written[j].ref)
  }

  lemma PlacedNext(before: State, w: State, written: seq<Written>, payloads: seq<Bytes>, r: Ref, p: Placement)
    requires |written| == |payloads| && Placed(before, w, written, payloads)
    requires r !in w.placed && Preserved(before, w)
    ensures Placed(before, w.(placed := w.placed[r := p]), written + [Written(r, p.slab)], payloads + [p.payload])
  {
  }

  /** Only the network has more on it, and every newly listed object is one of these. */
  ghost predicate Grown(before: State, w: State, written: seq<Written>) {
    && w == before.(placed := w.placed, pinned := w.pinned, objects := w.objects)
    && before.pinned <= w.pinned && before.objects <= w.objects
    && Preserved(before, w)
    && (forall r <- w.objects :: r in before.objects || exists x <- written :: x.ref == r)
  }
}
