/** What a sweep may destroy: the keep-set's own check, and the plan decided before anything is deleted. */
module Sweeping {
  import opened Records
  import opened World
  import opened Ledger

  /** Everything a sweep must leave alone, with the number of records the caller says it holds. */
  datatype Live = Live(objects: set<Ref>, slabs: set<SlabId>, catalogued: int, releaseAll: bool)

  /** Whether a sweep with this keep-set may go ahead while `pinned` slabs are tracked. */
  predicate Check(live: Live, pinned: nat) {
    if live.catalogued < 0 then false
    else if live.catalogued == 0 then pinned == 0 || live.releaseAll
    else if live.objects == {} then false
    else if |live.objects| < live.catalogued then false
    else live.slabs != {}
  }

  function KeepSet(w: State, releaseAll: bool): Live {
    Live(LiveRefs(w), LiveSlabs(w), |w.catalog|, releaseAll)
  }

  ghost predicate RefsDiffer(catalog: map<Id, Entry>) {
    forall a, b :: a in catalog && b in catalog && a != b ==> catalog[a].ref != catalog[b].ref
  }

  function RefsOf(catalog: map<Id, Entry>): set<Ref> { set id <- catalog :: catalog[id].ref }

  /** A keep-set names as many objects as there are records exactly when no two records share one. */
  lemma {:induction false} RefCount(catalog: map<Id, Entry>)
    ensures |RefsOf(catalog)| <= |catalog|
    ensures |RefsOf(catalog)| == |catalog| <==> RefsDiffer(catalog)
    decreases |catalog|
  {
    if catalog != map[] {
      var id :| id in catalog;
      var rest := catalog - {id};
      RefCount(rest);
      assert catalog.Keys == rest.Keys + {id};
      WithRef(catalog, id, rest);
    }
  }

  lemma WithRef(catalog: map<Id, Entry>, id: Id, rest: map<Id, Entry>)
    requires id in catalog && rest == catalog - {id}
    ensures RefsOf(catalog) == RefsOf(rest) + {catalog[id].ref}
    ensures RefsDiffer(catalog) <==> RefsDiffer(rest) && catalog[id].ref !in RefsOf(rest)
  {
    forall r ensures r in RefsOf(catalog) <==> r in RefsOf(rest) || r == catalog[id].ref {
      if r in RefsOf(catalog) {
        var k :| k in catalog && catalog[k].ref == r;
        assert k == id || k in rest;
      }
      if r in RefsOf(rest) {
        var k :| k in rest && rest[k].ref == r;
        assert catalog[k].ref == r;
      }
    }
    if RefsDiffer(rest) && catalog[id].ref !in RefsOf(rest) {
      forall a, b | a in catalog && b in catalog && a != b ensures catalog[a].ref != catalog[b].ref {
        assert a in rest ==> catalog[a].ref in RefsOf(rest);
        assert b in rest ==> catalog[b].ref in RefsOf(rest);
      }
    }
  }

  /**
   * The keep-set computed from a catalog is refused exactly when the catalog is empty while slabs are
   * tracked and releasing everything was not asked for, or when two records share an object.
   */
  lemma RefusedExactly(w: State, releaseAll: bool, pinned: nat)
    ensures !Check(KeepSet(w, releaseAll), pinned)
      <==> (if w.catalog == map[] then pinned > 0 && !releaseAll else !RefsDiffer(w.catalog))
  {
    RefCount(w.catalog);
    if w.catalog != map[] {
      var id :| id in w.catalog;
      assert w.catalog[id].ref in LiveRefs(w) && w.catalog[id].slab in LiveSlabs(w);
      assert w.catalog.Keys != {};
    }
  }

  // ---------- the plan ----------

  datatype Listed = Listed(ref: Ref, slab: SlabId)

  datatype Tracked = Tracked(slab: SlabId, origin: Origin)

  datatype Plan = Plan(deadObjects: seq<Ref>, releasableSlabs: set<SlabId>, heldSlabs: nat, foreignObjects: nat)

  function Ours(tracked: seq<Tracked>): set<SlabId> {
    set t <- tracked | Releasable(t.origin) :: t.slab
  }

  function HeldCount(tracked: seq<Tracked>): nat {
    if tracked == [] then 0
    else HeldCount(tracked[..|tracked| - 1]) + if Releasable(tracked[|tracked| - 1].origin) then 0 else 1
  }

  function ForeignCount(ours: set<SlabId>, objects: seq<Listed>): nat {
    if objects == [] then 0
    else ForeignCount(ours, objects[..|objects| - 1]) + if objects[|objects| - 1].slab in ours then 0 else 1
  }

  /** The slabs that may be released, and how many may not. */
  method Ledgered(tracked: seq<Tracked>) returns (ours: set<SlabId>, held: nat)
    ensures ours == Ours(tracked) && held == HeldCount(tracked)
  {
    ours, held := {}, 0;
    for i := 0 to |tracked|
      invariant ours == Ours(tracked[..i]) && held == HeldCount(tracked[..i])
    {
      assert tracked[..i + 1] == tracked[..i] + [tracked[i]];
      assert tracked[..i + 1][..i] == tracked[..i];
      if Releasable(tracked[i].origin) {
        ours := ours + {tracked[i].slab};
      } else {
        held := held + 1;
      }
    }
    assert tracked[..|tracked|] == tracked;
  }

  /** An object is dead when it sits on a slab of ours and is not named. */
  ghost predicate IsDead(live: Live, ours: set<SlabId>, objects: seq<Listed>, r: Ref) {
    r !in live.objects && exists o <- objects :: o.ref == r && o.slab in ours
  }

  lemma DeadNext(live: Live, ours: set<SlabId>, objects: seq<Listed>, i: nat, r: Ref)
    requires i < |objects|
    ensures IsDead(live, ours, objects[..i + 1], r)
      <==> IsDead(live, ours, objects[..i], r)
           || (objects[i].slab in ours && objects[i].ref !in live.objects && objects[i].ref == r)
  {
    assert objects[..i + 1] == objects[..i] + [objects[i]];
    assert objects[i] in objects[..i + 1];
    assert forall o <- objects[..i] :: o in objects[..i + 1];
  }

  /** Dead is what sits on a slab of ours and is not named; releasable is a slab of ours nothing is named on. */
  method PlanSweep(live: Live, tracked: seq<Tracked>, objects: seq<Listed>) returns (plan: Plan)
    ensures forall r :: r in plan.deadObjects <==> IsDead(live, Ours(tracked), objects, r)
    ensures plan.releasableSlabs == Ours(tracked) - live.slabs
    ensures plan.heldSlabs == HeldCount(tracked)
    ensures plan.foreignObjects == ForeignCount(Ours(tracked), objects)
  {
    var ours, held := Ledgered(tracked);
    var dead: seq<Ref>, foreign := [], 0;
    for i := 0 to |objects|
      invariant forall r :: r in dead <==> IsDead(live, ours, objects[..i], r)
      invariant foreign == ForeignCount(ours, objects[..i])
    {
      forall r
        ensures IsDead(live, ours, objects[..i + 1], r)
          <==> IsDead(live, ours, objects[..i], r)
               || (objects[i].slab in ours && objects[i].ref !in live.objects && objects[i].ref == r)
      {
        DeadNext(live, ours, objects, i, r);
      }
      assert objects[..i + 1][..i] == objects[..i];
      if objects[i].slab !in ours {
        foreign := foreign + 1;
      } else if objects[i].ref !in live.objects {
        dead := dead + [objects[i].ref];
      }
    }
    assert objects[..|objects|] == objects;
    plan := Plan(dead, ours - live.slabs, held, foreign);
  }
}
