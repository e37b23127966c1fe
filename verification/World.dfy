/**
 * What outlives a process: the account's objects and pinned slabs on the network, and this device's
 * slab ledger, catalog, bodies and cached locations.
 */
module World {
  import opened Bytes
  import opened Records
  import opened Locations
  import Envelope
  import Frames
  import Queue

  datatype Ref = Ref(bytes: Bytes)
  datatype SlabId = SlabId(hash: Envelope.Hash)

  /** What a ref handed out by an upload denotes, for good: an object's content is immutable. */
  datatype Placement = Placement(slab: SlabId, payload: Bytes)

  datatype Origin = Pinned | Hydrated

  datatype Entry = Entry(id: Id, kind: Kind, cid: Bytes, ref: Ref, slab: SlabId)

  datatype Body = Body(kind: Kind, bytes: Bytes)

  /** The two halves of each cached location, stored apart and lost apart. */
  datatype LocationCache = LocationCache(halves: map<Ref, Half>, shared: map<Envelope.Hash, Bytes>)

  datatype State = State(
    placed: map<Ref, Placement>,
    objects: set<Ref>,
    pinned: set<SlabId>,
    ledger: map<SlabId, Origin>,
    catalog: map<Id, Entry>,
    bodies: map<Id, Body>,
    cache: LocationCache,
    queue: Queue.Table)

  /** What a stored payload gives back to a vault holding the key. */
  datatype Found = Found(id: Id, kind: Kind, body: Bytes)

  /** The records this vault's ids were minted for, and how one is stored and read back. */
  datatype Env = Env(
    truth: Id -> Body,
    payload: Id -> Bytes,
    recover: Bytes -> Option<Found>,
    cid: Bytes -> Bytes,
    locator: Locator)

  ghost predicate Sound(env: Env) { Recovers(env) && SplitsTruly(env.locator) }

  /** Every record's own payload gives that record back. */
  ghost predicate Recovers(env: Env) {
    forall id: Id {:trigger env.payload(id)} ::
      env.recover(env.payload(id)) == Some(Found(id, env.truth(id).kind, env.truth(id).bytes))
  }

  /** Distinct records have distinct content ids. */
  ghost predicate CidsApart(env: Env) {
    forall a: Id, b: Id {:trigger env.truth(a), env.truth(b)} ::
      a != b ==> env.cid(env.truth(a).bytes) != env.cid(env.truth(b).bytes)
  }

  /** Each record framed under its own id and sealed, one to an object. */
  function FramedEnv(s: Sealer, truth: Id -> Body, nonce: Id -> nat, cid: Bytes -> Bytes, locator: Locator): Env {
    Env(truth,
        (id: Id) => Frames.FrameRecord(FrameOf(s, truth, nonce, id)),
        payload => Recover(s, payload),
        cid, locator)
  }

  function FrameOf(s: Sealer, truth: Id -> Body, nonce: Id -> nat, id: Id): Frames.Frame {
    Frames.Frame(truth(id).kind, id, s.seal(nonce(id), truth(id).bytes))
  }

  function Recover(s: Sealer, payload: Bytes): Option<Found> {
    match Frames.Unframe(payload)
    case Damaged => None
    case Item(frame, _) =>
      var body :- s.open(frame.sealed);
      Some(Found(frame.id, frame.kind, body))
  }

  lemma FramedEnvIsSound(s: Sealer, truth: Id -> Body, nonce: Id -> nat, cid: Bytes -> Bytes, locator: Locator)
    requires Inverts(s) && SplitsTruly(locator) && forall id: Id :: Frames.Fits(FrameOf(s, truth, nonce, id))
    ensures Sound(FramedEnv(s, truth, nonce, cid, locator))
  {
    var env := FramedEnv(s, truth, nonce, cid, locator);
    forall id: Id ensures env.recover(env.payload(id)) == Some(Found(id, truth(id).kind, truth(id).bytes)) {
      var f := FrameOf(s, truth, nonce, id);
      Frames.UnframeFrame(f, []);
      assert Frames.FrameRecord(f) + [] == Frames.FrameRecord(f);
    }
  }

  /** The indexer opens an object exactly while the slab under it is pinned. */
  predicate Readable(w: State, r: Ref) {
    r in w.objects && r in w.placed && w.placed[r].slab in w.pinned
  }

  /** The entry names a readable object holding the record's own payload, and the slab it sits on. */
  ghost predicate Stored(env: Env, w: State, e: Entry) {
    && Readable(w, e.ref)
    && w.placed[e.ref] == Placement(e.slab, env.payload(e.id))
    && e.kind == env.truth(e.id).kind
    && e.cid == env.cid(env.truth(e.id).bytes)
  }

  /** A payload that opens as one of this vault's records is that record's payload. */
  ghost predicate Genuine(env: Env, payload: Bytes) {
    env.recover(payload).Some? ==> payload == env.payload(env.recover(payload).value.id)
  }

  /** A row holds a record as this vault sealed it. */
  ghost predicate Own(env: Env, b: Queue.Blob) {
    && b.payload == env.payload(b.id) && b.kind == env.truth(b.id).kind && b.cid == env.cid(env.truth(b.id).bytes)
  }

  ghost predicate QueueTrue(env: Env, queue: Queue.Table) {
    Queue.Ordered(queue) && forall id {:trigger queue[id]} | id in queue :: Own(env, queue[id].blob)
  }

  /** What is cached is what splitting that object's location yields, whichever lookup stored it. */
  ghost predicate CacheTrue(l: Locator, c: LocationCache) {
    (forall r {:trigger c.halves[r]} | r in c.halves :: c.halves[r] == l.half(r.bytes)) && SharesTruly(l, c.shared)
  }

  ghost predicate Safe(env: Env, w: State) {
    && (forall id <- w.catalog :: w.catalog[id].id == id && Stored(env, w, w.catalog[id]))
    && w.objects <= w.placed.Keys
    && (forall r <- w.placed :: Genuine(env, w.placed[r].payload))
    && (forall id <- w.bodies :: w.bodies[id] == env.truth(id))
    && CacheTrue(env.locator, w.cache) && QueueTrue(env, w.queue)
  }

  /** The record is waiting in the queue as it was sealed, or catalogued at an object that holds it. */
  ghost predicate Kept(env: Env, w: State, id: Id) {
    || (id in w.queue && w.queue[id].blob.id == id && Own(env, w.queue[id].blob))
    || (id in w.catalog && Stored(env, w, w.catalog[id]))
  }

  /** Every record waiting or catalogued. */
  function Holding(w: State): set<Id> { w.queue.Keys + w.catalog.Keys }

  lemma HeldIsKept(env: Env, w: State, id: Id)
    requires Safe(env, w) && id in Holding(w)
    ensures Kept(env, w, id)
  {
  }

  /** Listed objects nothing can open any more. */
  ghost function Stranded(w: State): set<Ref> {
    set r <- w.objects | !Readable(w, r)
  }

  function LiveRefs(w: State): set<Ref> { set id <- w.catalog :: w.catalog[id].ref }

  function LiveSlabs(w: State): set<SlabId> { set id <- w.catalog :: w.catalog[id].slab }

  // ---------- single durable steps ----------

  lemma UploadedSafe(env: Env, w: State, r: Ref, p: Placement)
    requires Safe(env, w) && r !in w.placed && Genuine(env, p.payload)
    ensures Safe(env, w.(placed := w.placed[r := p]))
  {
    var next := w.(placed := w.placed[r := p]);
    forall id <- w.catalog ensures Stored(env, next, w.catalog[id]) {
      assert Stored(env, w, w.catalog[id]);
    }
  }

  lemma PinnedSafe(env: Env, w: State, s: SlabId)
    requires Safe(env, w)
    ensures Safe(env, w.(pinned := w.pinned + {s}))
    ensures Stranded(w.(pinned := w.pinned + {s})) <= Stranded(w)
  {
    var next := w.(pinned := w.pinned + {s});
    forall id <- w.catalog ensures Stored(env, next, w.catalog[id]) {
      assert Stored(env, w, w.catalog[id]);
    }
  }

  lemma ListedSafe(env: Env, w: State, r: Ref)
    requires Safe(env, w) && r in w.placed
    ensures Safe(env, w.(objects := w.objects + {r}))
  {
    var next := w.(objects := w.objects + {r});
    forall id <- w.catalog ensures Stored(env, next, w.catalog[id]) {
      assert Stored(env, w, w.catalog[id]);
    }
  }

  /** Deleting an object no entry names is safe. */
  lemma DeletedSafe(env: Env, w: State, r: Ref)
    requires Safe(env, w) && r !in LiveRefs(w)
    ensures Safe(env, w.(objects := w.objects - {r}))
    ensures Stranded(w.(objects := w.objects - {r})) <= Stranded(w)
  {
    var next := w.(objects := w.objects - {r});
    forall id <- w.catalog ensures Stored(env, next, w.catalog[id]) {
      assert Stored(env, w, w.catalog[id]);
    }
  }

  /** Releasing a slab no entry names is safe. */
  lemma UnpinnedSafe(env: Env, w: State, s: SlabId)
    requires Safe(env, w) && s !in LiveSlabs(w)
    ensures Safe(env, w.(pinned := w.pinned - {s}))
  {
    var next := w.(pinned := w.pinned - {s});
    forall id <- w.catalog ensures Stored(env, next, w.catalog[id]) {
      assert Stored(env, w, w.catalog[id]);
    }
  }

  lemma CataloguedSafe(env: Env, w: State, e: Entry)
    requires Safe(env, w) && Stored(env, w, e)
    ensures Safe(env, w.(catalog := w.catalog[e.id := e]))
  {
    var next := w.(catalog := w.catalog[e.id := e]);
    forall id <- next.catalog ensures Stored(env, next, next.catalog[id]) {
      assert id in w.catalog ==> Stored(env, w, w.catalog[id]);
    }
  }

  /** Neither the ledger, nor a true location cache, nor a true queue can make a state unsafe. */
  lemma AccountedSafe(env: Env, w: State, ledger: map<SlabId, Origin>, cache: LocationCache, queue: Queue.Table)
    requires Safe(env, w) && CacheTrue(env.locator, cache) && QueueTrue(env, queue)
    ensures Safe(env, w.(ledger := ledger, cache := cache, queue := queue))
  {
    var next := w.(ledger := ledger, cache := cache, queue := queue);
    forall id <- w.catalog ensures Stored(env, next, w.catalog[id]) {
      assert Stored(env, w, w.catalog[id]);
    }
  }

  lemma ForgottenSafe(env: Env, w: State, id: Id)
    requires Safe(env, w)
    ensures Safe(env, w.(catalog := w.catalog - {id}))
    ensures Safe(env, w.(bodies := w.bodies - {id}))
  {
    var fewer, lighter := w.(catalog := w.catalog - {id}), w.(bodies := w.bodies - {id});
    forall k <- w.catalog
      ensures Stored(env, fewer, w.catalog[k]) && Stored(env, lighter, w.catalog[k])
    {
      assert Stored(env, w, w.catalog[k]);
    }
  }

  lemma HeldSafe(env: Env, w: State, id: Id)
    requires Safe(env, w)
    ensures Safe(env, w.(bodies := w.bodies[id := env.truth(id)]))
  {
    var next := w.(bodies := w.bodies[id := env.truth(id)]);
    forall k <- w.catalog ensures Stored(env, next, w.catalog[k]) {
      assert Stored(env, w, w.catalog[k]);
    }
  }
}
