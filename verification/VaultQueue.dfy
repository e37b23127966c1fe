/** The queue's statements as durable steps of the vault that shares it. */
module VaultQueue {
  import opened Records
  import opened World
  import opened Vault
  import opened Queue

  lemma EnqueuedTrue(env: Env, t: Table, b: Blob, s: nat)
    requires QueueTrue(env, t) && NextSeq(t, s) && Own(env, b)
    ensures QueueTrue(env, Enqueued(t, b, s)) && Enqueued(t, b, s).Keys == t.Keys + {b.id}
  {
  }

  lemma ClaimedTrue(env: Env, t: Table, ids: set<Id>, now: int, owner: nat)
    requires QueueTrue(env, t)
    ensures QueueTrue(env, Claimed(t, ids, now, owner)) && Claimed(t, ids, now, owner).Keys == t.Keys
  {
    forall id <- t ensures Own(env, Claimed(t, ids, now, owner)[id].blob) {
      assert Own(env, t[id].blob);
    }
  }

  lemma ReleasedTrue(env: Env, t: Table, ids: set<Id>)
    requires QueueTrue(env, t)
    ensures QueueTrue(env, Released(t, ids)) && Released(t, ids).Keys == t.Keys
  {
    forall id <- t ensures Own(env, Released(t, ids)[id].blob) {
      assert Own(env, t[id].blob);
    }
  }

  lemma DroppedTrue(env: Env, t: Table, ids: set<Id>)
    requires QueueTrue(env, t)
    ensures QueueTrue(env, Dropped(t, ids)) && Dropped(t, ids).Keys == t.Keys - ids
  {
    forall id <- Dropped(t, ids) ensures Own(env, Dropped(t, ids)[id].blob) {
      assert Own(env, t[id].blob);
    }
  }

  /** Only the queue may have changed. */
  ghost predicate OnlyQueue(before: State, w: State) { w == before.(queue := w.queue) }

  /** Puts a sealed record in the queue, or renews the row it already has there. */
  method EnqueueRow(d: Device, b: Blob, n: nat, ghost a: State, ghost bounds: Bounds)
    returns (ok: bool, ghost s: nat)
    requires d.Valid() && Trace(d.passed, n, a, bounds) && Within(bounds, a, d.world) && Own(d.env, b)
    modifies d
    ensures d.Valid() && Trace(d.passed, n, a, bounds) && Within(bounds, a, d.world) && old(d.passed) <= d.passed
    ensures NextSeq(old(d.world).queue, s)
    ensures d.world == old(d.world) || d.world == old(d.world).(queue := Enqueued(old(d.world).queue, b, s))
    ensures ok ==> d.world == old(d.world).(queue := Enqueued(old(d.world).queue, b, s))
    ensures d.steady ==> ok
  {
    var table := new QueueTable.At(d.world.queue, d.steady);
    s := table.Enqueue(b);
    EnqueuedTrue(d.env, d.world.queue, b, s);
    ok := d.SetQueue(table.rows, n, a, bounds);
  }

  /** Claims every row free to be taken, earliest first. */
  method ClaimRows(d: Device, owner: nat, now: int, staleAfter: int, n: nat, ghost a: State, ghost bounds: Bounds)
    returns (ok: bool, out: seq<Blob>)
    requires d.Valid() && Trace(d.passed, n, a, bounds) && Within(bounds, a, d.world)
    modifies d
    ensures d.Valid() && Trace(d.passed, n, a, bounds) && Within(bounds, a, d.world) && old(d.passed) <= d.passed
    ensures var t := old(d.world).queue; IdsIn(out) == TakeableIn(t, now, staleAfter) && InArrivalOrder(t, IdsIn(out), out)
    ensures var claimed := old(d.world).(queue := Claimed(old(d.world).queue, IdsIn(out), now, owner));
      (d.world == old(d.world) || d.world == claimed) && (ok ==> d.world == claimed)
    ensures d.steady ==> ok
  {
    var table := new QueueTable.At(d.world.queue, d.steady);
    out := table.ClaimQueued(owner, now, staleAfter, 0);
    AllPicked(d.world.queue, IdsIn(out), now, staleAfter);
    ClaimedTrue(d.env, d.world.queue, IdsIn(out), now, owner);
    ok := d.SetQueue(table.rows, n, a, bounds);
  }

  lemma AllPicked(t: Table, ids: set<Id>, now: int, staleAfter: int)
    requires Picks(t, ids, now, staleAfter, 0)
    ensures ids == TakeableIn(t, now, staleAfter)
  {
    var free := TakeableIn(t, now, staleAfter);
    SizeOfRest(free, ids, free - ids);
  }

  /** Hands rows back. */
  method ReleaseRows(d: Device, ids: seq<Id>, n: nat, ghost a: State, ghost bounds: Bounds) returns (ok: bool)
    requires d.Valid() && Trace(d.passed, n, a, bounds) && Within(bounds, a, d.world)
    modifies d
    ensures d.Valid() && Trace(d.passed, n, a, bounds) && Within(bounds, a, d.world) && old(d.passed) <= d.passed
    ensures var released := old(d.world).(queue := Released(old(d.world).queue, Named(ids)));
      (d.world == old(d.world) || d.world == released) && (ok ==> d.world == released)
    ensures ok ==> Free(d.world.queue, Named(ids) * d.world.queue.Keys)
    ensures d.steady ==> ok
  {
    var table := new QueueTable.At(d.world.queue, d.steady);
    ok := table.ReleaseQueued(ids);
    if !ok {
      return;
    }
    ReleasedTrue(d.env, d.world.queue, Named(ids));
    ok := d.SetQueue(table.rows, n, a, bounds);
  }

  /** Drops rows whose records are catalogued. */
  method DropRows(d: Device, ids: seq<Id>, n: nat, ghost a: State, ghost bounds: Bounds) returns (ok: bool)
    requires d.Valid() && Trace(d.passed, n, a, bounds) && Within(bounds, a, d.world)
    requires Named(ids) <= d.world.catalog.Keys
    modifies d
    ensures d.Valid() && Trace(d.passed, n, a, bounds) && Within(bounds, a, d.world) && old(d.passed) <= d.passed
    ensures var dropped := old(d.world).(queue := Dropped(old(d.world).queue, Named(ids)));
      (d.world == old(d.world) || d.world == dropped) && (ok ==> d.world == dropped)
    ensures d.steady ==> ok
  {
    var table := new QueueTable.At(d.world.queue, d.steady);
    ok := table.DropQueued(ids);
    if !ok {
      return;
    }
    DroppedTrue(d.env, d.world.queue, Named(ids));
    ok := d.SetQueue(table.rows, n, a, bounds);
  }

  /** What other processes over the same queue may do to it at any moment. */
  datatype QueueEvent =
    | Claims(owner: nat, now: int, staleAfter: int)
    | Releases(ids: seq<Id>)
    | Enqueues(b: Blob)

  ghost predicate AllOwn(env: Env, events: seq<QueueEvent>) {
    forall e <- events :: e.Enqueues? ==> Own(env, e.b)
  }

  /** Other processes take rows for flushes of their own, hand back rows, theirs or anyone's, and add rows. */
  method Others(d: Device, events: seq<QueueEvent>, n: nat, ghost a: State, ghost bounds: Bounds)
    requires d.Valid() && Trace(d.passed, n, a, bounds) && Within(bounds, a, d.world) && AllOwn(d.env, events)
    modifies d
    ensures d.Valid() && Trace(d.passed, n, a, bounds) && Within(bounds, a, d.world) && old(d.passed) <= d.passed
    ensures OnlyQueue(old(d.world), d.world) && old(d.world).queue.Keys <= d.world.queue.Keys
    ensures events == [] ==> d.world == old(d.world)
  {
    ghost var w := d.world;
    for i := 0 to |events|
      invariant d.Valid() && Trace(d.passed, n, a, bounds) && Within(bounds, a, d.world) && old(d.passed) <= d.passed
      invariant OnlyQueue(w, d.world) && w.queue.Keys <= d.world.queue.Keys
      invariant i == 0 ==> d.world == w
    {
      assert events[i] in events;
      Other(d, events[i], n, a, bounds);
    }
  }

  method Other(d: Device, e: QueueEvent, n: nat, ghost a: State, ghost bounds: Bounds)
    requires d.Valid() && Trace(d.passed, n, a, bounds) && Within(bounds, a, d.world)
    requires e.Enqueues? ==> Own(d.env, e.b)
    modifies d
    ensures d.Valid() && Trace(d.passed, n, a, bounds) && Within(bounds, a, d.world) && old(d.passed) <= d.passed
    ensures OnlyQueue(old(d.world), d.world) && old(d.world).queue.Keys <= d.world.queue.Keys
  {
    ghost var queue := d.world.queue;
    match e {
      case Claims(owner, now, staleAfter) =>
        var _, out := ClaimRows(d, owner, now, staleAfter, n, a, bounds);
        ClaimedTrue(d.env, queue, IdsIn(out), now, owner);
      case Releases(ids) =>
        var _ := ReleaseRows(d, ids, n, a, bounds);
        ReleasedTrue(d.env, queue, Named(ids));
      case Enqueues(b) =>
        ghost var s;
        var ok;
        ok, s := EnqueueRow(d, b, n, a, bounds);
        EnqueuedTrue(d.env, queue, b, s);
    }
  }
}
