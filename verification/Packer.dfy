/** One process's packer over the vault: claim, write, catalogue, drop, and the count it keeps meanwhile. */
module Packer {
  import opened Bytes
  import opened Records
  import opened World
  import opened Ledger
  import opened Vault
  import opened Queue
  import opened VaultQueue
  import opened VaultRecords

  /** Zero leaves a threshold out. */
  datatype Policy = Policy(maxRecords: int, maxBytes: int, maxAge: int, idleAfter: int, claimTimeout: int)

  const DEFAULT_CLAIM_TIMEOUT := 600_000  // ten minutes, in milliseconds

  function ClaimTimeout(p: Policy): (t: int)
    ensures t > 0
  {
    if p.claimTimeout > 0 then p.claimTimeout else DEFAULT_CLAIM_TIMEOUT
  }

  predicate Due(p: Policy, s: QueueState, now: int) {
    s.records > 0 &&
    (|| (p.maxRecords > 0 && s.records >= p.maxRecords)
     || (p.maxBytes > 0 && s.bytes >= p.maxBytes)
     || (p.maxAge > 0 && s.oldest.Some? && now - s.oldest.value >= p.maxAge)
     || (p.idleAfter > 0 && s.newest.Some? && now - s.newest.value >= p.idleAfter))
  }

  /** No threshold in force has been reached by what is waiting. */
  ghost predicate CanWait(p: Policy, t: Table, now: int) {
    && (p.maxRecords > 0 ==> |t| < p.maxRecords)
    && (p.maxBytes > 0 ==> TotalBytes(t, t.Keys) < p.maxBytes)
    && (p.maxAge > 0 ==> forall id <- t :: now - t[id].blob.queuedAt < p.maxAge)
    && (p.idleAfter > 0 && t != map[] ==> exists id <- t :: now - t[id].blob.queuedAt < p.idleAfter)
  }

  /** A count that is right makes a flush due exactly when something waits that should wait no longer. */
  lemma DueExactly(p: Policy, s: QueueState, t: Table, now: int)
    requires Summarises(s, t)
    ensures Due(p, s, now) <==> t != map[] && !CanWait(p, t, now)
  {
    if t != map[] {
      var first :| first in t && t[first].blob.queuedAt == s.oldest.value;
      var last :| last in t && t[last].blob.queuedAt == s.newest.value;
    }
  }

  datatype Outcome =
    | NothingDue | Offline | NotQueued | NotClaimed | NothingToClaim
    | WriteRefused | NotReleased | NotCatalogued | NotDropped | Flushed

  /** What a flush of these rows leaves: gone from the queue, each at a fresh object this device may release. */
  ghost predicate AllFlushed(a: State, w: State, ids: set<Id>) {
    ids !! w.queue.Keys && EachLanded(a, w, ids)
  }

  function IdList(batch: seq<Blob>): (ids: seq<Id>)
    ensures Named(ids) == IdsIn(batch)
  {
    var ids := seq(|batch|, i requires 0 <= i < |batch| => batch[i].id);
    assert forall i :: 0 <= i < |batch| ==> batch[i] in batch && ids[i] == batch[i].id;
    ids
  }

  /** Rows taken in arrival order hold distinct records, so distinct content ids. */
  lemma ClaimedDiffer(env: Env, t: Table, claimed: seq<Blob>)
    requires CidsApart(env) && QueueTrue(env, t) && InArrivalOrder(t, IdsIn(claimed), claimed)
    ensures AllDiffer(CidsOf(claimed)) && forall b <- claimed :: Own(env, b)
  {
    forall b <- claimed ensures Own(env, b) {
      assert Own(env, t[b.id].blob);
    }
    forall i, j | 0 <= i < j < |claimed| ensures CidsOf(claimed)[i] != CidsOf(claimed)[j] {
      assert claimed[i] in claimed && claimed[j] in claimed;
      assert env.truth(claimed[i].id) == env.truth(claimed[i].id) && env.truth(claimed[j].id) == env.truth(claimed[j].id);
    }
  }

  lemma SomeTaken(claimed: seq<Blob>)
    requires claimed != []
    ensures IdsIn(claimed) != {}
  {
    assert claimed[0].id in IdsIn(claimed);
  }

  lemma DroppedRows(t: Table, ids: set<Id>, now: int, owner: nat)
    ensures Dropped(Claimed(t, ids, now, owner), ids) == t - ids
  {
  }

  /**
   * How a flush of these rows comes out, with what it leaves of the claim: nothing to take leaves all as it
   * was; a refused write hands the rows back, free for any claim at once, unless handing them back
   * failed too; a claim that was taken stays on rows that were written and not catalogued.
   */
  ghost predicate CameOut(a: State, w: State, taken: set<Id>, others: Meanwhile, now: int, owner: nat, out: Outcome) {
    && SameButFor(a, w, taken) && Promoted(a.ledger, w.ledger)
    && (out == NothingToClaim ==> taken == {} && w == a)
    && (out == WriteRefused ==> Free(w.queue, taken))
    && (out == NotClaimed || out == WriteRefused || out == NotReleased ==> w.catalog == a.catalog && w.ledger == a.ledger)
    && (out != Flushed && out != NotDropped ==> a.queue.Keys <= w.queue.Keys)
    && (out == Flushed ==> AllFlushed(a, w, taken))
    && (out == NotDropped ==> EachLanded(a, w, taken))
    && (others == NOBODY ==> QueueLeft(a.queue, w.queue, taken, now, owner, out))
  }

  ghost predicate EachLanded(a: State, w: State, ids: set<Id>) {
    forall id {:trigger Landed(a, w, id)} | id in ids :: Landed(a, w, id)
  }

  /** The queue each outcome leaves when nobody else is at it: a failed statement may have taken effect. */
  ghost predicate QueueLeft(t: Table, left: Table, taken: set<Id>, now: int, owner: nat, out: Outcome) {
    match out
    case NotClaimed => left == t || left == Claimed(t, taken, now, owner)
    case WriteRefused => left == Released(t, taken)
    case NotReleased => left == Claimed(t, taken, now, owner) || left == Released(t, taken)
    case NotCatalogued => left == Claimed(t, taken, now, owner)
    case NotDropped => left == Claimed(t, taken, now, owner) || left == t - taken
    case Flushed => left == t - taken
    case _ => left == t
  }

  /** What holds between a flush's steps, of the records it took. */
  ghost predicate Between(a: State, w: State, taken: set<Id>, others: Meanwhile, now: int, owner: nat) {
    && SameButFor(a, w, taken) && Promoted(a.ledger, w.ledger) && taken <= a.queue.Keys <= w.queue.Keys
    && (others == NOBODY ==> w.queue == Claimed(a.queue, taken, now, owner))
  }

  /** Other processes at the queue leave everything else, and every row, where it is. */
  lemma OthersBetween(a: State, w: State, next: State, taken: set<Id>, others: Meanwhile, now: int, owner: nat)
    requires Between(a, w, taken, others, now, owner)
    requires OnlyQueue(w, next) && w.queue.Keys <= next.queue.Keys && (others == NOBODY ==> next == w)
    ensures Between(a, next, taken, others, now, owner)
  {
  }

  /** Cataloguing leaves the queue alone, so it may stop anywhere. */
  lemma CataloguedBetween(a: State, w: State, next: State, taken: set<Id>, others: Meanwhile, now: int, owner: nat)
    requires Between(a, w, taken, others, now, owner)
    requires next.queue == w.queue && SameButFor(a, next, taken) && Promoted(w.ledger, next.ledger)
    ensures Between(a, next, taken, others, now, owner)
    ensures CameOut(a, next, taken, others, now, owner, NotCatalogued)
  {
  }

  /** Writing a batch touches nothing this device keeps. */
  lemma GrownBetween(a: State, w: State, next: State, written: seq<Written>, taken: set<Id>, others: Meanwhile,
                     now: int, owner: nat)
    requires Between(a, w, taken, others, now, owner) && OnlyQueue(a, w) && Grown(w, next, written)
    ensures Between(a, next, taken, others, now, owner) && next.catalog == a.catalog && next.ledger == a.ledger
  {
  }

  lemma BatchLanded(env: Env, a: State, w: State, next: State, claimed: seq<Blob>, written: seq<Written>)
    requires OnlyQueue(a, w) && |written| == |claimed| && Placed(w, next, written, PayloadsOf(claimed))
    requires (forall b <- claimed :: Own(env, b)) && forall x <- written :: Readable(next, x.ref)
    ensures AllWritten(env, a, next, claimed, written) && AllDiffer(written)
  {
    BatchWritten(env, w, next, claimed, written);
    WrittenSince(env, a, w, next, claimed, written);
  }

  lemma WrittenSince(env: Env, a: State, w: State, next: State, claimed: seq<Blob>, written: seq<Written>)
    requires a.placed == w.placed && |written| == |claimed| && AllWritten(env, w, next, claimed, written)
    ensures AllWritten(env, a, next, claimed, written)
  {
    forall i | 0 <= i < |claimed| ensures Written1(env, a, next, claimed[i], written[i]) {
      assert Written1(env, w, next, claimed[i], written[i]);
    }
  }

  lemma RefusedLeaves(a: State, w: State, next: State, taken: set<Id>, others: Meanwhile, now: int, owner: nat,
                      released: bool)
    requires Between(a, w, taken, others, now, owner) && w.catalog == a.catalog && w.ledger == a.ledger
    requires OnlyQueue(w, next) && (next.queue == w.queue || next.queue == Released(w.queue, taken))
    requires released ==> next.queue == Released(w.queue, taken) && Free(next.queue, taken * next.queue.Keys)
    ensures CameOut(a, next, taken, others, now, owner, if released then WriteRefused else NotReleased)
  {
    ClaimedThenReleased(a.queue, taken, now, owner);
    assert taken * next.queue.Keys == taken;
  }

  lemma DropLeaves(a: State, w: State, next: State, taken: set<Id>, others: Meanwhile, now: int, owner: nat, ok: bool)
    requires Between(a, w, taken, others, now, owner) && EachLanded(a, w, taken)
    requires OnlyQueue(w, next) && (next.queue == w.queue || next.queue == Dropped(w.queue, taken))
    requires ok ==> next.queue == Dropped(w.queue, taken)
    ensures CameOut(a, next, taken, others, now, owner, if ok then Flushed else NotDropped)
  {
    DroppedRows(a.queue, taken, now, owner);
    forall id | id in taken ensures Landed(a, next, id) {
      assert Landed(a, w, id);
    }
  }

  lemma ClaimLeaves(a: State, w: State, taken: set<Id>, others: Meanwhile, now: int, owner: nat)
    requires taken <= a.queue.Keys && (w == a || w == a.(queue := Claimed(a.queue, taken, now, owner)))
    ensures CameOut(a, w, taken, others, now, owner, NotClaimed)
    ensures taken == {} ==> CameOut(a, w, taken, others, now, owner, NothingToClaim)
    ensures w == a.(queue := Claimed(a.queue, taken, now, owner)) ==> Between(a, w, taken, others, now, owner)
  {
    ClaimedThenReleased(a.queue, taken, now, owner);
    ClaimedKeys(a.queue, taken, now, owner);
  }

  lemma ClaimedThenReleased(t: Table, ids: set<Id>, now: int, owner: nat)
    ensures Released(Claimed(t, ids, now, owner), ids) == Released(t, ids)
    ensures Claimed(t, {}, now, owner) == t
  {
  }

  lemma ClaimedKeys(t: Table, ids: set<Id>, now: int, owner: nat)
    ensures Claimed(t, ids, now, owner).Keys == t.Keys
  {
  }

  lemma LandedNamed(a: State, w: State, batch: seq<Blob>)
    requires EachLanded(a, w, IdsIn(batch))
    ensures IdsIn(batch) <= w.catalog.Keys
  {
    forall id | id in IdsIn(batch) ensures id in w.catalog {
      assert Landed(a, w, id);
    }
  }

  lemma LandedStay(a: State, w: State, next: State, batch: seq<Blob>)
    requires (forall b <- batch :: Landed(a, w, b.id)) && OnlyQueue(w, next)
    ensures EachLanded(a, next, IdsIn(batch))
  {
    forall id | id in IdsIn(batch) ensures Landed(a, next, id) {
      assert Landed(a, w, id);
    }
  }

  /** What others do to the queue touches nothing that was written. */
  lemma WrittenStay(env: Env, a: State, w: State, next: State, batch: seq<Blob>, written: seq<Written>)
    requires |written| == |batch| && AllWritten(env, a, w, batch, written) && OnlyQueue(w, next)
    ensures AllWritten(env, a, next, batch, written)
  {
    forall i | 0 <= i < |batch| ensures Written1(env, a, next, batch[i], written[i]) {
      assert Written1(env, a, w, batch[i], written[i]);
    }
  }

  /** What other processes do to the queue between the steps of a flush. */
  datatype Meanwhile = Meanwhile(claimed: seq<QueueEvent>, written: seq<QueueEvent>, catalogued: seq<QueueEvent>)

  const NOBODY := Meanwhile([], [], [])

  ghost predicate LegalMeanwhile(env: Env, others: Meanwhile) {
    AllOwn(env, others.claimed) && AllOwn(env, others.written) && AllOwn(env, others.catalogued)
  }

  class Packer {
    const device: Device
    const owner: nat
    const policy: Policy
    const online: bool
    var state: QueueState

    ghost predicate Valid()
      reads this, device
    {
      device.Valid() && CidsApart(device.env)
    }

    constructor (device: Device, owner: nat, policy: Policy, online: bool)
      requires device.Valid() && CidsApart(device.env)
      ensures Valid() && this.device == device && this.owner == owner && this.policy == policy && this.online == online
      ensures Summarises(state, device.world.queue)
    {
      this.device, this.owner, this.policy, this.online := device, owner, policy, online;
      state := QueueState(0, 0, None, None);
      new;
      Refresh();
    }

    method Refresh()
      requires device.Valid()
      modifies this`state
      ensures Summarises(state, device.world.queue)
    {
      var table := new QueueTable.At(device.world.queue, device.steady);
      var s := table.Summarise();
      state := s;
    }

    /**
     * One flush, with other processes at the queue between its steps. A completed one takes exactly the
     * rows free to be taken, and leaves each record out of the queue at a fresh object of its own on a
     * slab this device may release, and the count matching the table; with nobody else at the queue
     * those are the only rows gone and none is added. However it ends no row is lost: it is still
     * queued, or its record is catalogued. What each outcome leaves of the claim is `CameOut`.
     */
    method Flush(now: int, others: Meanwhile) returns (out: Outcome)
      requires Valid() && LegalMeanwhile(device.env, others)
      modifies this, device
      ensures Valid() && old(device.passed) <= device.passed
      ensures Trace(device.passed, old(|device.passed|), old(device.world), NOTHING)
      ensures Within(NOTHING, old(device.world), device.world)
      ensures out == Offline <==> !online
      ensures out == Offline ==> device.world == old(device.world)
      ensures CameOut(old(device.world), device.world, TakeableIn(old(device.world.queue), now, ClaimTimeout(policy)),
                      others, now, owner, out)
      ensures out == Flushed ==> Summarises(state, device.world.queue)
      ensures out != Flushed ==> state == old(state)
      ensures out != NothingDue && out != NotQueued
      ensures device.steady && online ==> out == Flushed || out == NothingToClaim
      ensures TakeableIn(old(device.world.queue), now, ClaimTimeout(policy)) == {} ==>
        out == Offline || out == NothingToClaim || out == NotClaimed
    {
      if !online {
        Itself(NOTHING, device.world);
        return Offline;
      }
      out := FlushOnline(now, others, |device.passed|, device.world);
    }

    /** A flush with a connection. */
    method FlushOnline(now: int, others: Meanwhile, n: nat, ghost a: State) returns (out: Outcome)
      requires Valid() && LegalMeanwhile(device.env, others) && a == device.world && n == |device.passed|
      modifies this, device
      ensures Ended(TakeableIn(a.queue, now, ClaimTimeout(policy)), others, now, n, a, out)
      ensures out != Flushed ==> state == old(state)
      ensures out != NothingDue && out != NotQueued && out != Offline && old(device.passed) <= device.passed
      ensures device.steady ==> out == Flushed || out == NothingToClaim
      ensures TakeableIn(a.queue, now, ClaimTimeout(policy)) == {} ==> out == NothingToClaim || out == NotClaimed
    {
      var ok, claimed := Take(now, others, n, a);
      if !ok {
        return NotClaimed;
      }
      if claimed == [] {
        return NothingToClaim;
      }
      SomeTaken(claimed);
      out := FinishClaimed(claimed, now, others, n, a);
    }

    method FinishClaimed(claimed: seq<Blob>, ghost now: int, others: Meanwhile, n: nat, ghost a: State)
      returns (out: Outcome)
      requires Under(claimed, now, others, n, a) && Safe(device.env, a)
      requires InArrivalOrder(a.queue, IdsIn(claimed), claimed) && OnlyQueue(a, device.world)
      modifies this, device
      ensures Left(claimed, others, now, n, a, out) && old(device.passed) <= device.passed
      ensures out != Flushed ==> state == old(state)
      ensures !out.NothingDue? && !out.Offline? && !out.NotQueued? && !out.NotClaimed? && !out.NothingToClaim?
    {
      OthersAt(claimed, others.claimed, now, others, n, a);
      out := WriteClaimed(claimed, now, others, n, a);
    }

    /** The claim, under the policy's timeout. */
    method Take(now: int, ghost others: Meanwhile, n: nat, ghost a: State) returns (ok: bool, claimed: seq<Blob>)
      requires Valid() && LegalMeanwhile(device.env, others) && a == device.world && n == |device.passed|
      modifies device
      ensures old(device.passed) <= device.passed && OnlyQueue(a, device.world)
      ensures IdsIn(claimed) == TakeableIn(a.queue, now, ClaimTimeout(policy))
      ensures InArrivalOrder(a.queue, IdsIn(claimed), claimed)
      ensures !ok ==> Ended(IdsIn(claimed), others, now, n, a, NotClaimed)
      ensures ok && claimed == [] ==> Ended(IdsIn(claimed), others, now, n, a, NothingToClaim)
      ensures ok ==> Under(claimed, now, others, n, a)
      ensures device.steady ==> ok
    {
      Itself(NOTHING, a);
      ok, claimed := ClaimRows(device, owner, now, ClaimTimeout(policy), n, a, NOTHING);
      ClaimLeaves(a, device.world, IdsIn(claimed), others, now, owner);
    }

    /** What each step past the claim starts from: nothing but the queue is touched there, and by nobody when alone. */
    ghost predicate Under(claimed: seq<Blob>, now: int, others: Meanwhile, n: nat, a: State)
      reads this, device
    {
      && Valid() && Trace(device.passed, n, a, NOTHING) && Within(NOTHING, a, device.world)
      && LegalMeanwhile(device.env, others) && Between(a, device.world, IdsIn(claimed), others, now, owner)
    }

    /** How a flush that took these rows ends. */
    ghost predicate Ended(taken: set<Id>, others: Meanwhile, now: int, n: nat, a: State, out: Outcome)
      reads this, device
    {
      && Valid() && Trace(device.passed, n, a, NOTHING) && Within(NOTHING, a, device.world)
      && CameOut(a, device.world, taken, others, now, owner, out)
      && (out == Flushed ==> Summarises(state, device.world.queue))
    }

    /** What the rest of a flush leaves, however far it gets. */
    ghost predicate Left(claimed: seq<Blob>, others: Meanwhile, now: int, n: nat, a: State, out: Outcome)
      reads this, device
    {
      Ended(IdsIn(claimed), others, now, n, a, out) && (device.steady ==> out == Flushed)
    }

    /** Other processes come between two steps. */
    method OthersAt(claimed: seq<Blob>, events: seq<QueueEvent>, ghost now: int, ghost others: Meanwhile, n: nat,
                    ghost a: State)
      requires Under(claimed, now, others, n, a) && AllOwn(device.env, events) && (others == NOBODY ==> events == [])
      modifies device
      ensures Under(claimed, now, others, n, a) && OnlyQueue(old(device.world), device.world)
      ensures old(device.passed) <= device.passed
    {
      ghost var w := device.world;
      Others(device, events, n, a, NOTHING);
      OthersBetween(a, w, device.world, IdsIn(claimed), others, now, owner);
    }

    method WriteClaimed(claimed: seq<Blob>, ghost now: int, others: Meanwhile, n: nat, ghost a: State)
      returns (out: Outcome)
      requires Under(claimed, now, others, n, a) && Safe(device.env, a)
      requires InArrivalOrder(a.queue, IdsIn(claimed), claimed) && OnlyQueue(a, device.world)
      modifies this, device
      ensures Left(claimed, others, now, n, a, out) && old(device.passed) <= device.passed
      ensures out != Flushed ==> state == old(state)
      ensures !out.NothingDue? && !out.Offline? && !out.NotQueued? && !out.NotClaimed? && !out.NothingToClaim?
    {
      ClaimedDiffer(device.env, a.queue, claimed);
      var ok, written := PutClaimed(claimed, now, others, n, a);
      if !ok {
        var released;
        out, released := HandBack(claimed, now, others, n, a);
        return;
      }
      out := FinishWritten(claimed, written, now, others, n, a);
    }

    method FinishWritten(claimed: seq<Blob>, written: seq<Written>, ghost now: int, others: Meanwhile, n: nat,
                         ghost a: State) returns (out: Outcome)
      requires Under(claimed, now, others, n, a)
      requires |written| == |claimed| && AllWritten(device.env, a, device.world, claimed, written)
      requires AllDiffer(CidsOf(claimed)) && AllDiffer(written)
      modifies this, device
      ensures Left(claimed, others, now, n, a, out) && old(device.passed) <= device.passed
      ensures out != Flushed ==> state == old(state)
      ensures out == NotCatalogued || out == NotDropped || out == Flushed
    {
      ghost var w := device.world;
      OthersAt(claimed, others.written, now, others, n, a);
      WrittenStay(device.env, a, w, device.world, claimed, written);
      out := CatalogueClaimed(claimed, written, now, others, n, a);
    }

    /** After a refused write the rows go back to the queue; failing that is an outcome of its own. */
    method HandBack(claimed: seq<Blob>, ghost now: int, ghost others: Meanwhile, n: nat, ghost a: State)
      returns (out: Outcome, released: bool)
      requires Under(claimed, now, others, n, a) && device.world.catalog == a.catalog && !device.steady
      requires device.world.ledger == a.ledger
      modifies device
      ensures Left(claimed, others, now, n, a, out) && old(device.passed) <= device.passed
      ensures out == if released then WriteRefused else NotReleased
    {
      ghost var w := device.world;
      released := ReleaseRows(device, IdList(claimed), n, a, NOTHING);
      RefusedLeaves(a, w, device.world, IdsIn(claimed), others, now, owner, released);
      out := if released then WriteRefused else NotReleased;
    }

    method PutClaimed(claimed: seq<Blob>, ghost now: int, ghost others: Meanwhile, n: nat, ghost a: State)
      returns (ok: bool, written: seq<Written>)
      requires Under(claimed, now, others, n, a)
      requires OnlyQueue(a, device.world) && forall b <- claimed :: Own(device.env, b)
      modifies device
      ensures Under(claimed, now, others, n, a) && old(device.passed) <= device.passed
      ensures device.world.catalog == a.catalog && device.world.ledger == a.ledger && (device.steady ==> ok)
      ensures ok ==> |written| == |claimed| && AllDiffer(written)
      ensures ok ==> AllWritten(device.env, a, device.world, claimed, written)
    {
      ghost var w := device.world;
      OwnPayloads(device.env, claimed);
      ok, written := device.PutBatch(PayloadsOf(claimed), n, a, NOTHING);
      GrownBetween(a, w, device.world, written, IdsIn(claimed), others, now, owner);
      if ok {
        BatchLanded(device.env, a, w, device.world, claimed, written);
      }
    }

    method CatalogueClaimed(claimed: seq<Blob>, written: seq<Written>, ghost now: int, others: Meanwhile, n: nat,
                            ghost a: State) returns (out: Outcome)
      requires Under(claimed, now, others, n, a)
      requires |written| == |claimed| && AllWritten(device.env, a, device.world, claimed, written)
      requires AllDiffer(CidsOf(claimed)) && AllDiffer(written)
      modifies this`state, device
      ensures Left(claimed, others, now, n, a, out) && old(device.passed) <= device.passed
      ensures out != Flushed ==> state == old(state)
      ensures out == NotCatalogued || out == NotDropped || out == Flushed
    {
      ghost var before := device.world;
      var ok := RecordFlush(device, claimed, written, n, a, before, NOTHING);
      ghost var w := device.world;
      CataloguedBetween(a, before, w, IdsIn(claimed), others, now, owner);
      if !ok {
        return NotCatalogued;
      }
      OthersAt(claimed, others.catalogued, now, others, n, a);
      LandedStay(a, w, device.world, claimed);
      out := DropClaimed(claimed, now, others, n, a);
    }

    method DropClaimed(claimed: seq<Blob>, ghost now: int, ghost others: Meanwhile, n: nat, ghost a: State)
      returns (out: Outcome)
      requires Under(claimed, now, others, n, a)
      requires EachLanded(a, device.world, IdsIn(claimed))
      modifies this`state, device
      ensures Left(claimed, others, now, n, a, out) && old(device.passed) <= device.passed
      ensures out != Flushed ==> state == old(state)
      ensures out == NotDropped || out == Flushed
    {
      ghost var w := device.world;
      LandedNamed(a, w, claimed);
      var ok := DropRows(device, IdList(claimed), n, a, NOTHING);
      DropLeaves(a, w, device.world, IdsIn(claimed), others, now, owner, ok);
      if !ok {
        return NotDropped;
      }
      Refresh();
      out := Flushed;
    }

    /**
     * Queues a sealed record durably, then flushes exactly when that made the queue due. Once queued, the
     * record is waiting or catalogued however the flush ends.
     */
    method Add(b: Blob, now: int, others: Meanwhile) returns (out: Outcome)
      requires Valid() && Own(device.env, b) && LegalMeanwhile(device.env, others)
      modifies this, device
      ensures Valid() && old(device.passed) <= device.passed
      ensures Trace(device.passed, old(|device.passed|), old(device.world), NOTHING)
      ensures Within(NOTHING, old(device.world), device.world)
      ensures out != NotQueued ==> b.id in Holding(device.world) && device.world.bodies == old(device.world.bodies)
      ensures out == NothingDue ==> state == Counted(old(state), b) && (online ==> !Due(policy, state, now))
      ensures out != NothingDue && out != NotQueued ==> online && Due(policy, Counted(old(state), b), now)
      ensures out == NothingDue && old(Summarises(state, device.world.queue)) && Newest(old(device.world.queue), b)
        ==> Summarises(state, device.world.queue) && (online ==> CanWait(policy, device.world.queue, now))
      ensures device.steady ==> out == NothingDue || out == Flushed || out == NothingToClaim
    {
      ghost var a := device.world;
      var n := |device.passed|;
      var ok := Count(b, n, a);
      if !ok {
        return NotQueued;
      }
      if !Due(policy, state, now) || !online {
        if Summarises(state, device.world.queue) {
          DueExactly(policy, state, device.world.queue, now);
        }
        return NothingDue;
      }
      out := FlushNow(now, others, n, a);
    }

    /** The flush an addition has made due. */
    method FlushNow(now: int, others: Meanwhile, ghost n: nat, ghost a: State) returns (out: Outcome)
      requires Valid() && LegalMeanwhile(device.env, others) && online
      requires Trace(device.passed, n, a, NOTHING) && Within(NOTHING, a, device.world)
      modifies this, device
      ensures Valid() && old(device.passed) <= device.passed
      ensures Trace(device.passed, n, a, NOTHING) && Within(NOTHING, a, device.world)
      ensures old(Holding(device.world)) <= Holding(device.world) && device.world.bodies == old(device.world.bodies)
      ensures out != NothingDue && out != NotQueued
      ensures device.steady ==> out == Flushed || out == NothingToClaim
    {
      ghost var w, before := device.world, device.passed;
      out := Flush(now, others);
      TraceThrough(before, device.passed, n, a, w);
      WithinThrough(a, w, device.world);
    }

    /** The enqueue, and the in-memory count that goes with it. */
    method Count(b: Blob, n: nat, ghost a: State) returns (ok: bool)
      requires Valid() && Own(device.env, b) && a == device.world && n == |device.passed|
      modifies this`state, device
      ensures Valid() && old(device.passed) <= device.passed
      ensures Trace(device.passed, n, a, NOTHING) && Within(NOTHING, a, device.world)
      ensures OnlyQueue(a, device.world) && (ok ==> b.id in device.world.queue)
      ensures state == if ok then Counted(old(state), b) else old(state)
      ensures ok && Summarises(old(state), a.queue) && Newest(a.queue, b) ==> Summarises(state, device.world.queue)
      ensures device.steady ==> ok
    {
      Itself(NOTHING, a);
      ghost var s;
      ok, s := EnqueueRow(device, b, n, a, NOTHING);
      if ok {
        CountedRight(state, a.queue, b, s);
        state := Counted(state, b);
      }
    }

    /** Keeps the record's body on this device, then queues it for the network. */
    method Remember(b: Blob, body: Body, now: int, others: Meanwhile) returns (out: Outcome)
      requires Valid() && Own(device.env, b) && body == device.env.truth(b.id) && LegalMeanwhile(device.env, others)
      modifies this, device
      ensures Valid() && old(device.passed) <= device.passed
      ensures Trace(device.passed, old(|device.passed|), old(device.world), NOTHING)
      ensures Within(NOTHING, old(device.world), device.world)
      ensures out != NotQueued ==> b.id in Holding(device.world)
      ensures out != NotQueued ==> device.world.bodies == old(device.world.bodies)[b.id := body]
      ensures device.steady ==> out == NothingDue || out == Flushed || out == NothingToClaim
    {
      ghost var a := device.world;
      var n := |device.passed|;
      Itself(NOTHING, a);
      var ok := HoldBody(device, b.id, body, n, a, NOTHING);
      if !ok {
        return NotQueued;
      }
      ghost var w, before := device.world, device.passed;
      out := Add(b, now, others);
      TraceThrough(before, device.passed, n, a, w);
      WithinThrough(a, w, device.world);
    }
  }

  /**
   * A flush after one whose write was refused takes at least the rows that one took, whenever it comes
   * and whoever was at the queue meanwhile: it finds something to claim, and once it completes each of
   * them is catalogued at a fresh object and out of the queue.
   */
  lemma RefusedThenAgain(a: State, w: State, next: State, taken: set<Id>, others: Meanwhile, now: int, owner: nat,
                         later: int, staleAfter: int, since: Meanwhile, claimer: nat, again: Outcome)
    requires CameOut(a, w, taken, others, now, owner, WriteRefused) && Preserved(a, w)
    requires CameOut(w, next, TakeableIn(w.queue, later, staleAfter), since, later, claimer, again)
    ensures taken <= TakeableIn(w.queue, later, staleAfter)
    ensures again == NothingToClaim ==> taken == {}
    ensures again == Flushed ==> AllFlushed(a, next, taken)
  {
    TakenAgain(w, taken, later, staleAfter);
    if again == Flushed {
      FlushedSince(a, w, next, taken, TakeableIn(w.queue, later, staleAfter));
    }
  }

  lemma TakenAgain(w: State, taken: set<Id>, now: int, staleAfter: int)
    requires Free(w.queue, taken)
    ensures taken <= TakeableIn(w.queue, now, staleAfter)
  {
  }

  lemma FlushedSince(a: State, w: State, next: State, taken: set<Id>, again: set<Id>)
    requires Preserved(a, w) && AllFlushed(w, next, again) && taken <= again
    ensures AllFlushed(a, next, taken)
  {
    forall id | id in taken ensures Landed(a, next, id) {
      assert Landed(w, next, id);
    }
  }

  /**
   * Forgetting reaches the catalog and not the queue: once a flush completes, the forgotten record is
   * catalogued again exactly when its row was still there for that flush to take.
   */
  method ForgetThenFlush(p: Packer, id: Id, now: int, others: Meanwhile) returns (ok: bool, out: Outcome)
    requires p.Valid() && LegalMeanwhile(p.device.env, others)
    modifies p, p.device
    ensures p.Valid()
    ensures ok && out == Flushed ==>
      (id in p.device.world.catalog
       <==> id in TakeableIn(old(p.device.world.queue), now, ClaimTimeout(p.policy)))
  {
    ok := Forget(p.device, id);
    ghost var w := p.device.world;
    out := p.Flush(now, others);
    ghost var taken := TakeableIn(w.queue, now, ClaimTimeout(p.policy));
    if ok && out == Flushed && id in taken {
      assert Landed(w, p.device.world, id);
    }
    if ok && id !in taken {
      AbsentStays(w, p.device.world, taken, id);
    }
  }

  lemma AbsentStays(w: State, next: State, ids: set<Id>, id: Id)
    requires SameButFor(w, next, ids) && id !in ids && id !in w.catalog
    ensures id !in next.catalog
  {
    assert id in next.catalog <==> id in next.catalog - ids;
    assert id in w.catalog <==> id in w.catalog - ids;
  }

  function Counted(s: QueueState, b: Blob): QueueState {
    QueueState(s.records + 1, s.bytes + |b.payload|,
      if s.oldest.None? then Some(b.queuedAt) else s.oldest, Some(b.queuedAt))
  }

  /** The record is not waiting yet, and none that is came after it. */
  ghost predicate Newest(t: Table, b: Blob) {
    b.id !in t && forall id <- t :: t[id].blob.queuedAt <= b.queuedAt
  }

  ghost predicate AddedRow(before: Table, b: Blob, after: Table) {
    b.id !in before && b.id in after && after[b.id].blob == b && after - {b.id} == before
  }

  lemma CountedRight(summary: QueueState, t: Table, b: Blob, s: nat)
    requires Ordered(t) && NextSeq(t, s)
    ensures b.id in Enqueued(t, b, s)
    ensures Summarises(summary, t) && Newest(t, b) ==> Summarises(Counted(summary, b), Enqueued(t, b, s))
  {
    if b.id !in t {
      RowAdded(t, b, s);
      SummaryWith(summary, t, b, Enqueued(t, b, s));
    }
  }

  lemma RowAdded(t: Table, b: Blob, s: nat)
    requires b.id !in t
    ensures AddedRow(t, b, Enqueued(t, b, s))
  {
  }

  /** Counting a new record in by hand keeps the summary right, when it is the newest. */
  lemma SummaryWith(s: QueueState, t: Table, b: Blob, with: Table)
    requires AddedRow(t, b, with)
    ensures Summarises(s, t) && Newest(t, b) ==> Summarises(Counted(s, b), with)
  {
    assert forall id <- t :: with[id] == t[id];
    TotalWithout(with, with.Keys, b.id);
    assert with.Keys - {b.id} == t.Keys;
    SameTotal(t, with, t.Keys);
    assert |with| == |with.Keys| == |t.Keys| + 1;
    if t != map[] {
      var id :| id in t;
    }
  }

  lemma {:induction false} SameTotal(t: Table, u: Table, ids: set<Id>)
    requires ids <= t.Keys && ids <= u.Keys && forall id <- ids :: t[id] == u[id]
    ensures TotalBytes(t, ids) == TotalBytes(u, ids)
    decreases |ids|
  {
    if ids != {} {
      var id :| id in ids;
      TotalWithout(t, ids, id);
      TotalWithout(u, ids, id);
      SameTotal(t, u, ids - {id});
    }
  }
}
