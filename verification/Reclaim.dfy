/** Releasing storage: sweeping dead objects and slabs, releasing empty slabs, dropping unreadable objects. */
module Reclaim {
  import opened Records
  import opened World
  import opened Ledger
  import opened Sweeping
  import opened Vault
  import opened ChangeFeed

  datatype Outcome = Refused | Failed | Done

  /** Readable objects on this device's own slabs that no entry names. */
  ghost function Dead(w: State): set<Ref> {
    set r <- w.objects | Readable(w, r) && Owned(w, w.placed[r].slab) && r !in LiveRefs(w)
  }

  /** This device's own slabs that no entry names. */
  ghost function Spare(w: State): set<SlabId> {
    (set s <- w.ledger | Releasable(w.ledger[s])) - LiveSlabs(w)
  }

  /** The loop that turns the catalog into a keep-set. */
  method LiveSet(d: Device, releaseAll: bool) returns (live: Live)
    requires d.Valid()
    ensures live == KeepSet(d.world, releaseAll)
  {
    var es := d.Entries();
    var objects: set<Ref>, slabs: set<SlabId> := {}, {};
    for i := 0 to |es|
      invariant objects == RefsOn(es[..i]) && slabs == SlabsOn(es[..i])
    {
      OneMoreOn(es, i);
      objects, slabs := objects + {es[i].ref}, slabs + {es[i].slab};
    }
    assert es[..|es|] == es;
    AllOn(d.world, es);
    live := Live(objects, slabs, |es|, releaseAll);
  }

  function RefsOn(es: seq<Entry>): set<Ref> { set e <- es :: e.ref }

  function SlabsOn(es: seq<Entry>): set<SlabId> { set e <- es :: e.slab }

  lemma OneMoreOn(es: seq<Entry>, i: nat)
    requires i < |es|
    ensures RefsOn(es[..i + 1]) == RefsOn(es[..i]) + {es[i].ref}
    ensures SlabsOn(es[..i + 1]) == SlabsOn(es[..i]) + {es[i].slab}
  {
    assert es[..i + 1] == es[..i] + [es[i]];
  }

  lemma AllOn(w: State, es: seq<Entry>)
    requires Lists(w.catalog, w.catalog.Keys, es)
    ensures RefsOn(es) == LiveRefs(w) && SlabsOn(es) == LiveSlabs(w)
  {
    forall r ensures r in RefsOn(es) <==> r in LiveRefs(w) {
      if r in RefsOn(es) {
        var e :| e in es && e.ref == r;
      }
    }
    forall s ensures s in SlabsOn(es) <==> s in LiveSlabs(w) {
      if s in SlabsOn(es) {
        var e :| e in es && e.slab == s;
      }
    }
  }

  /** No listed object is left on a slab of ours nothing live is on, once the dead ones are gone. */
  lemma NothingLeftOn(env: Env, a: State, w: State, slab: SlabId)
    requires Safe(env, a) && slab in Spare(a)
    requires w.placed == a.placed && w.objects == a.objects - Dead(a) && w.pinned <= a.pinned
    ensures OnSlab(w, slab) == {}
  {
    forall id <- a.catalog ensures a.placed[a.catalog[id].ref].slab in LiveSlabs(a) {
      assert Stored(env, a, a.catalog[id]);
    }
  }

  /**
   * Deletes what no entry names on this device's slabs, then releases those of its slabs no entry is
   * on. Nothing an entry names is touched, no slab of another origin is released, and at no point is
   * an object left behind on a slab that has been released. It refuses while records are queued, or
   * when the keep-set cannot be trusted.
   */
  method Sweep(d: Device, pending: nat, releaseAll: bool) returns (out: Outcome)
    requires d.Valid()
    modifies d
    ensures d.Valid() && old(d.passed) <= d.passed
    ensures Trace(d.passed, old(|d.passed|), old(d.world), Bounds({}, Dead(old(d.world)), Spare(old(d.world)), {}))
    ensures out.Refused? <==> pending > 0 || !Check(KeepSet(old(d.world), releaseAll), |old(d.world).ledger|)
    ensures out.Refused? ==> d.world == old(d.world)
    ensures d.world.catalog == old(d.world).catalog && d.world.bodies == old(d.world).bodies
    ensures out.Done? ==>
      ReleasedOnly(old(d.world).(objects := old(d.world).objects - Dead(old(d.world))), d.world, Spare(old(d.world)))
    ensures d.steady ==> !out.Failed?
  {
    ghost var a := d.world;
    ghost var b := Bounds({}, Dead(a), Spare(a), {});
    Itself(b, a);
    var n := |d.passed|;
    if pending > 0 {
      return Refused;
    }
    var tracked := d.TrackedSlabs();
    var live := LiveSet(d, releaseAll);
    if !Check(live, |tracked|) {
      return Refused;
    }
    var dead, spare := Planned(d, live, tracked);
    var ok := d.DeleteObjects(dead, n, a, b);
    if !ok {
      return Failed;
    }
    out := ReleaseSpare(d, spare, n, a, b);
  }

  /** What the sweep will destroy, decided before it destroys any of it. */
  method Planned(d: Device, live: Live, tracked: seq<Tracked>) returns (dead: set<Ref>, spare: set<SlabId>)
    requires d.Valid() && live.objects == LiveRefs(d.world) && live.slabs == LiveSlabs(d.world)
    requires Ours(tracked) == set s <- d.world.ledger | Releasable(d.world.ledger[s])
    ensures dead == Dead(d.world) && spare == Spare(d.world)
  {
    var objects := d.Listing();
    var plan := PlanSweep(live, tracked, objects);
    dead, spare := (set r <- plan.deadObjects), plan.releasableSlabs;
    PlanIsDead(d.world, plan, dead, tracked, objects);
  }

  lemma PlanIsDead(a: State, plan: Plan, dead: set<Ref>, tracked: seq<Tracked>, objects: seq<Listed>)
    requires Ours(tracked) == set s <- a.ledger | Releasable(a.ledger[s])
    requires forall o <- objects :: Readable(a, o.ref) && o.slab == a.placed[o.ref].slab
    requires forall r :: Readable(a, r) ==> exists o <- objects :: o.ref == r
    requires forall r ::
      r in plan.deadObjects <==> (r !in LiveRefs(a) && exists o <- objects :: o.ref == r && o.slab in Ours(tracked))
    requires dead == set r <- plan.deadObjects
    ensures dead == Dead(a)
  {
    forall r ensures r in dead <==> r in Dead(a) {
      if r in Dead(a) {
        var o :| o in objects && o.ref == r;
      }
    }
  }

  method ReleaseSpare(d: Device, spare: set<SlabId>, n: nat, ghost a: State, ghost b: Bounds) returns (out: Outcome)
    requires d.Valid() && Trace(d.passed, n, a, b) && Within(b, a, d.world)
    requires Safe(d.env, a) && spare == Spare(a) && b.released == Spare(a)
    requires d.world == a.(objects := a.objects - Dead(a))
    modifies d
    ensures d.Valid() && Trace(d.passed, n, a, b) && old(d.passed) <= d.passed && !out.Refused?
    ensures d.world.catalog == a.catalog && d.world.bodies == a.bodies && d.world.objects == a.objects - Dead(a)
    ensures out.Done? ==> ReleasedOnly(old(d.world), d.world, spare)
    ensures d.steady ==> out.Done?
  {
    forall s <- spare ensures OnSlab(d.world, s) == {} {
      NothingLeftOn(d.env, a, d.world, s);
    }
    out := ReleaseAll(d, spare, n, a, b);
  }

  /** No entry is on any of these slabs, and releasing them is within what the operation may strand. */
  ghost predicate MayRelease(b: Bounds, w: State, slabs: set<SlabId>) {
    slabs <= b.released && slabs !! LiveSlabs(w) && forall s <- slabs :: OnSlab(w, s) <= b.stranded
  }

  lemma StillMayRelease(b: Bounds, w: State, now: State, slabs: set<SlabId>, gone: set<SlabId>, s: SlabId)
    requires MayRelease(b, w, slabs) && s in slabs && ReleasedOnly(w, now, gone)
    ensures s in b.released && s !in LiveSlabs(now) && OnSlab(now, s) <= b.stranded
  {
    assert OnSlab(now, s) <= OnSlab(w, s);
  }

  /** Releases these slabs one after another, stopping at the first that fails. */
  method ReleaseAll(d: Device, slabs: set<SlabId>, n: nat, ghost a: State, ghost b: Bounds) returns (out: Outcome)
    requires d.Valid() && Trace(d.passed, n, a, b) && Within(b, a, d.world) && MayRelease(b, d.world, slabs)
    modifies d
    ensures d.Valid() && Trace(d.passed, n, a, b) && Within(b, a, d.world) && old(d.passed) <= d.passed && !out.Refused?
    ensures d.world == old(d.world).(pinned := d.world.pinned, ledger := d.world.ledger, cache := d.world.cache)
    ensures out.Done? ==> ReleasedOnly(old(d.world), d.world, slabs)
    ensures d.steady ==> out.Done?
  {
    var left := slabs;
    ghost var w := d.world;
    NoneReleased(w);
    assert slabs - left == {};
    while left != {}
      invariant d.Valid() && Trace(d.passed, n, a, b) && Within(b, a, d.world) && old(d.passed) <= d.passed
      invariant left <= slabs && ReleasedOnly(w, d.world, slabs - left)
      decreases left
    {
      var s :| s in left;
      StillMayRelease(b, w, d.world, slabs, slabs - left, s);
      var ok := ReleaseOne(d, s, n, a, b, w, slabs - left);
      if !ok {
        return Failed;
      }
      assert slabs - (left - {s}) == (slabs - left) + {s};
      left := left - {s};
    }
    assert slabs - left == slabs;
    out := Done;
  }

  /** Releases one more slab nothing live is on. */
  method ReleaseOne(d: Device, s: SlabId, n: nat, ghost a: State, ghost b: Bounds, ghost w: State,
                    ghost gone: set<SlabId>) returns (ok: bool)
    requires d.Valid() && Trace(d.passed, n, a, b) && Within(b, a, d.world) && ReleasedOnly(w, d.world, gone)
    requires s in b.released && s !in LiveSlabs(d.world) && OnSlab(d.world, s) <= b.stranded
    modifies d
    ensures d.Valid() && Trace(d.passed, n, a, b) && Within(b, a, d.world) && old(d.passed) <= d.passed
    ensures d.world == w.(pinned := d.world.pinned, ledger := d.world.ledger, cache := d.world.cache)
    ensures ok ==> ReleasedOnly(w, d.world, gone + {s})
    ensures d.steady ==> ok
  {
    ghost var now := d.world;
    ok := d.Unpin(s, n, a, b);
    if ok {
      OneReleased(w, now, d.world, gone, s);
    }
  }

  /** Pinned slabs no readable object sits on. */
  ghost function Empty(w: State): set<SlabId> {
    set s <- w.pinned | !Occupied(w, s)
  }

  ghost predicate Occupied(w: State, s: SlabId) {
    exists r <- w.objects :: Readable(w, r) && w.placed[r].slab == s
  }

  /**
   * Releases every pinned slab with no readable object on it. The ledger is not consulted: a slab another
   * device pinned is released too, but only when nothing on it could be read. It refuses only an
   * account whose every pinned slab looks empty, unless told that is so.
   */
  method ReleaseOrphans(d: Device, releaseAll: bool) returns (out: Outcome)
    requires d.Valid()
    modifies d
    ensures d.Valid() && old(d.passed) <= d.passed
    ensures Trace(d.passed, old(|d.passed|), old(d.world), Bounds({}, {}, Empty(old(d.world)), {}))
    ensures out.Refused? <==>
      old(d.world).pinned != {} && !releaseAll && forall r <- old(d.world).objects :: !Readable(old(d.world), r)
    ensures d.world == old(d.world).(pinned := d.world.pinned, ledger := d.world.ledger, cache := d.world.cache)
    ensures out.Refused? ==> d.world == old(d.world)
    ensures out.Done? ==> ReleasedOnly(old(d.world), d.world, Empty(old(d.world)))
    ensures d.steady ==> !out.Failed?
  {
    ghost var a := d.world;
    ghost var b := Bounds({}, {}, Empty(a), {});
    Itself(b, a);
    var n := |d.passed|;
    var pinned := d.world.pinned;
    var objects := d.Listing();
    var occupied := set o <- objects :: o.slab;
    assert pinned - occupied == Empty(a) by {
      forall s <- pinned ensures s in occupied <==> Occupied(a, s) {
        if Occupied(a, s) {
          var r :| r in a.objects && Readable(a, r) && a.placed[r].slab == s;
          var o :| o in objects && o.ref == r;
        }
      }
    }
    if !(pinned == {} || occupied != {} || releaseAll) {
      forall r <- a.objects ensures !Readable(a, r) {
        assert Readable(a, r) ==> exists o <- objects :: o.ref == r && o.slab in occupied;
      }
      return Refused;
    }
    if pinned != {} && !releaseAll {
      var s :| s in occupied;
      var o :| o in objects && o.slab == s;
      assert Readable(a, o.ref);
    }
    out := ReleaseEmpty(d, pinned - occupied, n, a, b);
  }

  method ReleaseEmpty(d: Device, empty: set<SlabId>, n: nat, ghost a: State, ghost b: Bounds) returns (out: Outcome)
    requires d.Valid() && Trace(d.passed, n, a, b) && Within(b, a, d.world) && d.world == a
    requires empty == Empty(a) && b.released == Empty(a)
    modifies d
    ensures d.Valid() && Trace(d.passed, n, a, b) && old(d.passed) <= d.passed && !out.Refused?
    ensures d.world == a.(pinned := d.world.pinned, ledger := d.world.ledger, cache := d.world.cache)
    ensures out.Done? ==> ReleasedOnly(a, d.world, empty)
    ensures d.steady ==> out.Done?
  {
    forall s <- empty ensures s !in LiveSlabs(a) && OnSlab(a, s) == {} {
      EmptyIsSpare(d.env, a, s);
    }
    out := ReleaseAll(d, empty, n, a, b);
  }

  lemma EmptyIsSpare(env: Env, a: State, s: SlabId)
    requires Safe(env, a) && s in Empty(a)
    ensures s !in LiveSlabs(a)
    ensures OnSlab(a, s) == {}
  {
    forall id <- a.catalog ensures a.catalog[id].slab != s {
      assert Stored(env, a, a.catalog[id]);
    }
    forall r <- a.objects ensures !(Readable(a, r) && a.placed[r].slab == s) {
    }
  }

  /**
   * Deletes the objects a walk of the feed reports unreadable. While no event in the feed has been
   * overtaken, those are the objects nothing can open, and nothing else is deleted.
   */
  method DropUnreadable(d: Device, feed: seq<Event>) returns (out: Outcome)
    requires d.Valid() && Tells(feed, d.world) && !exists i: nat, j: nat :: Overtaken(feed, i, j)
    modifies d
    ensures d.Valid() && old(d.passed) <= d.passed && !out.Refused?
    ensures Trace(d.passed, old(|d.passed|), old(d.world), Bounds({}, Stranded(old(d.world)), {}, {}))
    ensures d.world == old(d.world).(objects := d.world.objects)
    ensures out.Done? ==> Stranded(d.world) == {} && d.world.objects == old(d.world).objects - Stranded(old(d.world))
    ensures d.steady ==> out.Done?
  {
    ghost var a := d.world;
    ghost var b := Bounds({}, Stranded(a), {}, {});
    Itself(b, a);
    var _, _, reported := WalkObjects(feed);
    var unreadable := set r <- reported;
    ReportedAreStranded(a, feed, unreadable);
    forall id <- a.catalog ensures a.catalog[id].ref !in unreadable {
      assert Stored(d.env, a, a.catalog[id]);
    }
    var ok := d.DeleteObjects(unreadable, |d.passed|, a, b);
    out := if ok then Done else Failed;
  }

  lemma ReportedAreStranded(w: State, feed: seq<Event>, unreadable: set<Ref>)
    requires Tells(feed, w) && !exists i: nat, j: nat :: Overtaken(feed, i, j)
    requires unreadable == set r <- UnopenableEvents(feed)
    ensures unreadable == Stranded(w)
  {
    UnreadableIsCurrent(feed);
    forall r ensures r in unreadable <==> r in Stranded(w) {
      assert r in unreadable <==> Latest(feed, r) == Some(Unreadable);
    }
  }
}
