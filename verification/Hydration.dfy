/** Rebuilding a catalog from the account alone: the objects a walk lists, hydrated. */
module Hydration {
  import opened Bytes
  import opened Records
  import opened World
  import opened Sweeping
  import opened ChangeFeed
  import opened VaultRecords

  /** The network holds exactly one readable object for each live record, and no other of this vault's. */
  ghost predicate OneObjectEach(env: Env, w: State) {
    forall r <- w.objects :: Readable(w, r) && env.recover(w.placed[r].payload).Some? ==>
      var id := env.recover(w.placed[r].payload).value.id;
      id in w.catalog && w.catalog[id].ref == r
  }

  lemma EntryIsTrue(env: Env, w: State, o: Listed)
    requires Sound(env) && Safe(env, w) && OneObjectEach(env, w)
    requires Readable(w, o.ref) && o.slab == w.placed[o.ref].slab
    ensures var e := EntryFor(env, w.placed, o);
      e.Some? ==> e.value.id in w.catalog && w.catalog[e.value.id] == e.value
  {
    var found := env.recover(w.placed[o.ref].payload);
    if found.Some? {
      var id := found.value.id;
      assert env.recover(env.payload(id)) == found;
      assert Stored(env, w, w.catalog[id]);
    }
  }

  /** Hydrating any readable objects adds true entries only. */
  lemma {:induction false} RestoredTrue(env: Env, w: State, objects: seq<Listed>)
    requires Sound(env) && Safe(env, w) && OneObjectEach(env, w)
    requires forall o <- objects :: Readable(w, o.ref) && o.slab == w.placed[o.ref].slab
    ensures var restored := Restored(env, w.placed, objects, map[]);
      forall id <- restored :: id in w.catalog && restored[id] == w.catalog[id]
    decreases |objects|
  {
    if objects != [] {
      var front, last := objects[..|objects| - 1], objects[|objects| - 1];
      assert last in objects && forall o <- front :: o in objects;
      RestoredTrue(env, w, front);
      EntryIsTrue(env, w, last);
    }
  }

  /** And the entry of each object hydrated. */
  lemma {:induction false} RestoredHolds(env: Env, placed: map<Ref, Placement>, objects: seq<Listed>, o: Listed)
    requires o in objects && EntryFor(env, placed, o).Some?
    ensures EntryFor(env, placed, o).value.id in Restored(env, placed, objects, map[])
    decreases |objects|
  {
    var front, last := objects[..|objects| - 1], objects[|objects| - 1];
    if o != last {
      assert objects == front + [last];
      RestoredHolds(env, placed, front, o);
    }
  }

  /**
   * On an empty device, hydrating what a walk of the account returns rebuilds the catalog exactly: the
   * same ids at the same kinds, objects, slabs and content ids, whatever history of writes, rewrites
   * and deletions led the account there.
   */
  lemma HydrationRebuilds(env: Env, w: State, feed: seq<Event>)
    requires Sound(env) && Safe(env, w) && OneObjectEach(env, w) && EndsIn(feed, w)
    ensures Restored(env, w.placed, Walked(feed), map[]) == w.catalog
  {
    var objects := Walked(feed);
    WalkedAreReadable(feed, w);
    RestoredTrue(env, w, objects);
    forall id <- w.catalog ensures id in Restored(env, w.placed, objects, map[]) {
      CataloguedIsListed(env, w, feed, id);
      RestoredHolds(env, w.placed, objects, Listed(w.catalog[id].ref, w.catalog[id].slab));
    }
  }

  lemma CataloguedIsListed(env: Env, w: State, feed: seq<Event>, id: Id)
    requires Sound(env) && Safe(env, w) && EndsIn(feed, w) && id in w.catalog
    ensures var o := Listed(w.catalog[id].ref, w.catalog[id].slab);
      o in Walked(feed) && EntryFor(env, w.placed, o).Some? && EntryFor(env, w.placed, o).value.id == id
  {
    var e := w.catalog[id];
    assert Stored(env, w, e);
    assert env.recover(env.payload(id)).Some?;
    WalkIsLive(feed);
    assert Latest(feed, e.ref) == Some(Present(e.slab));
    assert Listed(e.ref, e.slab) in Walked(feed);
  }
}
