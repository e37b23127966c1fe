/** The slab ledger: which slabs this device may release, and how repeated sightings of one slab merge. */
module Ledger {
  import opened World

  predicate Releasable(o: Origin) { o != Hydrated }

  /** This device may release the slab. */
  predicate Owned(w: State, s: SlabId) { s in w.ledger && Releasable(w.ledger[s]) }

  /** The ledger with these slabs filed as pinned here, and nothing else changed. */
  function Filed(ledger: map<SlabId, Origin>, slabs: set<SlabId>): map<SlabId, Origin> {
    ledger + map s | s in slabs :: Pinned
  }

  /** A pin is the stronger claim: a sighting never demotes it, and it promotes a sighting. */
  function TrackedWith(ledger: map<SlabId, Origin>, slab: SlabId, origin: Origin): map<SlabId, Origin> {
    var pinnedHere := slab in ledger && ledger[slab] == Pinned;
    ledger[slab := if pinnedHere || origin == Pinned then Pinned else Hydrated]
  }

  function TakeOwnership(ledger: map<SlabId, Origin>): (owned: map<SlabId, Origin>)
    ensures owned.Keys == ledger.Keys
  {
    map s <- ledger :: Pinned
  }

  datatype Sighting = Sighting(slab: SlabId, origin: Origin)

  function TrackAll(ledger: map<SlabId, Origin>, seen: seq<Sighting>): map<SlabId, Origin>
    decreases seen
  {
    if seen == [] then ledger else TrackAll(TrackedWith(ledger, seen[0].slab, seen[0].origin), seen[1..])
  }

  /**
   * After any calls in any order, a slab is this device's to release exactly when it already was or
   * one of the calls pinned it; a slab is listed exactly when it already was or some call named it.
   */
  lemma {:induction false} PinnedOnceIsPinned(ledger: map<SlabId, Origin>, seen: seq<Sighting>, slab: SlabId)
    ensures slab in TrackAll(ledger, seen) <==> slab in ledger || exists x <- seen :: x.slab == slab
    ensures slab in TrackAll(ledger, seen) ==>
      (Releasable(TrackAll(ledger, seen)[slab])
       <==> (slab in ledger && Releasable(ledger[slab])) || Sighting(slab, Pinned) in seen)
    decreases seen
  {
    if seen != [] {
      var next := TrackedWith(ledger, seen[0].slab, seen[0].origin);
      PinnedOnceIsPinned(next, seen[1..], slab);
      assert forall x :: x in seen <==> x == seen[0] || x in seen[1..];
    }
  }

  /** The order of the calls does not matter. */
  lemma OrderIrrelevant(ledger: map<SlabId, Origin>, a: seq<Sighting>, b: seq<Sighting>)
    requires multiset(a) == multiset(b)
    ensures TrackAll(ledger, a) == TrackAll(ledger, b)
  {
    forall x ensures x in a <==> x in b {
      assert x in a <==> x in multiset(a);
    }
    var la, lb := TrackAll(ledger, a), TrackAll(ledger, b);
    forall slab: SlabId
      ensures slab in la <==> slab in lb
      ensures slab in la ==> la[slab] == lb[slab]
    {
      PinnedOnceIsPinned(ledger, a, slab);
      PinnedOnceIsPinned(ledger, b, slab);
    }
  }
}
