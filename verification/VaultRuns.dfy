/** Whole runs of the vault: any operations in any order, each of which may die at any durable step. */
module VaultRuns {
  import opened Bytes
  import opened Records
  import opened World
  import opened Ledger
  import opened Vault
  import opened Queue
  import opened VaultQueue
  import opened ChangeFeed
  import opened Reclaim
  import opened Repack
  import opened VaultRecords
  import opened Packer
  import Envelope

  datatype Op =
    | DoRemember(b: Blob, now: int, others: Meanwhile)
    | DoFlush(now: int, others: Meanwhile)
    | DoForget(id: Id)
    | DoHydrate(up: bool)
    | DoRepack(up: bool)
    | DoSweep(releaseAll: bool)
    | DoReleaseOrphans(releaseAll: bool)
    | DoDropUnreadable
    | DoClaimSlabs
    | DoFetch(id: Id, known: Option<set<Bytes>>, recent: Recency, up: bool)
    | DoForgetLocally(id: Id)
    | DoEvict(r: Ref, slab: Envelope.Hash)
    | DoOthers(events: seq<QueueEvent>)
    | DoOtherInstallation(payloads: seq<Bytes>)

  /** What is remembered is sealed as this vault seals, and nobody else writes what opens as its records. */
  ghost predicate Legal(env: Env, op: Op) {
    match op
    case DoRemember(b, _, others) => Own(env, b) && LegalMeanwhile(env, others)
    case DoFlush(_, others) => LegalMeanwhile(env, others)
    case DoOthers(events) => AllOwn(env, events)
    case DoOtherInstallation(payloads) => forall p <- payloads :: Genuine(env, p)
    case _ => true
  }

  /** What one operation may do on its way, given the state it starts from. */
  ghost function OpBounds(op: Op, a: State): Bounds {
    match op
    case DoForget(id) => Bounds({id}, {}, {}, {})
    case DoRepack(_) => RepackBounds(a)
    case DoSweep(_) => Bounds({}, Dead(a), Spare(a), {})
    case DoReleaseOrphans(_) => Bounds({}, {}, Empty(a), {})
    case DoDropUnreadable => Bounds({}, Stranded(a), {}, {})
    case _ => NOTHING
  }

  method Step(p: Packer, op: Op) returns (ok: bool)
    requires p.Valid() && Legal(p.device.env, op)
    modifies p, p.device
    ensures p.Valid() && old(p.device.passed) <= p.device.passed
    ensures Trace(p.device.passed, old(|p.device.passed|), old(p.device.world), OpBounds(op, old(p.device.world)))
    ensures ok && op.DoRemember? ==> op.b.id in Holding(p.device.world)
  {
    var d := p.device;
    ok := true;
    match op {
      case DoRemember(b, now, others) =>
        var out := p.Remember(b, d.env.truth(b.id), now, others);
        ok := out != NotQueued;
      case DoFlush(now, others) => var _ := p.Flush(now, others);
      case DoRepack(up) => var _ := RepackAll(d, p.state.records, up);
      case DoSweep(releaseAll) => var _ := Sweep(d, p.state.records, releaseAll);
      case _ => VaultStep(d, op);
    }
  }

  /** The operations that do not go through the packer. */
  method VaultStep(d: Device, op: Op)
    requires d.Valid() && Legal(d.env, op) && !op.DoRemember? && !op.DoFlush? && !op.DoRepack? && !op.DoSweep?
    modifies d
    ensures d.Valid() && old(d.passed) <= d.passed
    ensures Trace(d.passed, old(|d.passed|), old(d.world), OpBounds(op, old(d.world)))
  {
    match op {
      case DoForget(id) => var _ := Forget(d, id);
      case DoHydrate(up) =>
        var objects := d.Listing();
        var _ := HydrateAll(d, objects, up);
      case DoReleaseOrphans(releaseAll) => var _ := ReleaseOrphans(d, releaseAll);
      case DoDropUnreadable =>
        var feed := CurrentFeed(d.world);
        var _ := DropUnreadable(d, feed);
      case DoClaimSlabs => var _ := ClaimSlabs(d);
      case DoFetch(id, known, recent, up) => var _ := Fetch(d, id, known, recent, up);
      case DoForgetLocally(id) => var _ := ForgetLocally(d, id);
      case DoEvict(r, slab) => var _ := Evict(d, r, slab);
      case DoOthers(events) =>
        Itself(NOTHING, d.world);
        Others(d, events, |d.passed|, d.world, NOTHING);
      case DoOtherInstallation(payloads) => OtherInstallation(d, payloads);
    }
  }

  /** The process dies somewhere in the operation that began at `n`: what it finds on return is a state passed then. */
  method Crash(d: Device, n: nat)
    requires d.Valid() && n < |d.passed|
    modifies d
    ensures d.Valid() && old(d.passed) <= d.passed
    ensures d.world in old(d.passed[n..]) && d.passed == old(d.passed) + [d.world]
  {
    var i: nat :| n <= i < |d.passed|;
    assert d.passed[i] in d.passed && d.passed[i] in d.passed[n..];
    d.Commit(d.passed[i]);
  }

  function Forgotten(ops: seq<Op>): set<Id> { set op <- ops | op.DoForget? :: op.id }

  /** Every record queued or catalogued then, and not dropped since, is queued or catalogued still. */
  ghost predicate Lasting(a: State, w: State, dropped: set<Id>) {
    Holding(a) - dropped <= Holding(w) && Preserved(a, w)
  }

  ghost predicate Strandless(ops: seq<Op>) { forall op <- ops :: !op.DoRepack? }

  /** Every state passed since `n` still holds every record not forgotten. */
  ghost predicate LastingSince(passed: seq<State>, n: nat, a: State, dropped: set<Id>) {
    n <= |passed| && forall i :: n <= i < |passed| ==> Lasting(a, passed[i], dropped)
  }

  /** In every state passed since `n` the record is queued as it was sealed, or catalogued and stored. */
  ghost predicate KeptSince(env: Env, passed: seq<State>, n: nat, id: Id) {
    n <= |passed| && forall i :: n <= i < |passed| ==> Kept(env, passed[i], id)
  }

  /** Every record held in `a` and not dropped is so kept. */
  ghost predicate AllKept(env: Env, passed: seq<State>, n: nat, a: State, dropped: set<Id>) {
    n <= |passed| && forall id <- Holding(a) - dropped :: KeptSince(env, passed, n, id)
  }

  /** From the one state to the other, with every state passed on the way, within these bounds. */
  ghost predicate Went(before: seq<State>, passed: seq<State>, a: State, w: State, b: Bounds) {
    && before <= passed && Trace(passed, |before|, a, b) && Within(b, a, w)
    && passed != [] && passed[|passed| - 1] == w
  }

  /** One operation, run to its end or cut short anywhere; a process that died is followed by another. */
  method StepOrCrash(p: Packer, op: Op) returns (q: Packer, ok: bool)
    requires p.Valid() && Legal(p.device.env, op)
    modifies p, p.device
    ensures q.Valid() && q.device == p.device && (q == p || fresh(q))
    ensures Went(old(p.device.passed), p.device.passed, old(p.device.world), p.device.world,
                 OpBounds(op, old(p.device.world)))
    ensures ok && op.DoRemember? ==> op.b.id in Holding(p.device.world)
  {
    ghost var a, b := p.device.world, OpBounds(op, p.device.world);
    var n := |p.device.passed|;
    q := p;
    ok := StepWithin(p, op, n, a, b);
    var dies := *;
    if dies && n < |p.device.passed| {
      q := DieAndRestart(p, n, a, b);
      ok := false;
    }
  }

  lemma OpItself(env: Env, op: Op, a: State)
    requires Safe(env, a)
    ensures Within(OpBounds(op, a), a, a)
  {
    EntriesAreHome(env, a);
    Itself(OpBounds(op, a), a);
  }

  method StepWithin(p: Packer, op: Op, ghost n: nat, ghost a: State, ghost b: Bounds) returns (ok: bool)
    requires p.Valid() && Legal(p.device.env, op)
    requires a == p.device.world && b == OpBounds(op, a) && n == |p.device.passed|
    modifies p, p.device
    ensures p.Valid() && old(p.device.passed) <= p.device.passed
    ensures Within(b, a, p.device.world) && Trace(p.device.passed, n, a, b)
    ensures ok && op.DoRemember? ==> op.b.id in Holding(p.device.world)
  {
    OpItself(p.device.env, op, a);
    ok := Step(p, op);
    LastWithin(p.device.passed, n, a, b, p.device.world);
  }

  /** The process is gone; another opens the vault, under an owner of its own. */
  method DieAndRestart(p: Packer, n: nat, ghost a: State, ghost b: Bounds) returns (q: Packer)
    requires p.Valid() && n < |p.device.passed| && Trace(p.device.passed, n, a, b)
    modifies p.device
    ensures fresh(q) && q.Valid() && q.device == p.device && old(p.device.passed) <= p.device.passed
    ensures Trace(p.device.passed, n, a, b) && Within(b, a, p.device.world)
  {
    var d := p.device;
    ghost var before := d.passed;
    Crash(d, n);
    PassedWithin(before, d.passed, d.world, n, a, b);
    var owner: nat := *;
    q := new Packer(d, owner, p.policy, p.online);
  }

  lemma PassedWithin(before: seq<State>, passed: seq<State>, w: State, n: nat, a: State, b: Bounds)
    requires Trace(before, n, a, b) && w in before[n..] && passed == before + [w]
    ensures Trace(passed, n, a, b) && Within(b, a, w)
  {
    var i :| 0 <= i < |before[n..]| && before[n..][i] == w;
    assert before[n + i] == w;
  }

  /**
   * However any run of operations goes, and wherever any of them is cut short, every state it passes
   * through is safe: each catalogued record is at a readable object holding its own payload. A record
   * queued or catalogued when the run begins, or when any of its operations ends, is from then on
   * queued as it was sealed or catalogued and stored, in every state, until it is forgotten; and an
   * operation that reports a record remembered ends with it so held. Without a repack no object is
   * stranded. `ends` are the positions in `passed` at which the operations ended.
   */
  method Run(p: Packer, ops: seq<Op>) returns (q: Packer, oks: seq<bool>, ghost ends: seq<nat>)
    requires p.Valid() && forall op <- ops :: Legal(p.device.env, op)
    modifies p, p.device
    ensures q.Valid() && q.device == p.device && old(p.device.passed) <= p.device.passed
    ensures forall w <- p.device.passed :: Safe(p.device.env, w)
    ensures AllKept(p.device.env, p.device.passed, old(|p.device.passed|), old(p.device.world), Forgotten(ops))
    ensures |oks| == |ends| == |ops| && forall i :: 0 <= i < |ops| ==>
      EndedAt(p.device.env, p.device.passed, ops[i], oks[i], ends[i], Forgotten(ops))
    ensures Strandless(ops) ==> Stranded(p.device.world) <= Stranded(old(p.device.world))
  {
    var d := p.device;
    ghost var a, n := d.world, |d.passed|;
    q, oks, ends := p, [], [];
    for i := 0 to |ops|
      invariant q.Valid() && q.device == d && (q == p || fresh(q)) && old(d.passed) <= d.passed
      invariant |oks| == |ends| == i && SoFar(d.passed, d.world, n, a, ops, oks, ends)
    {
      var ok;
      ghost var end;
      assert ops[i] in ops;
      q, ok, end := RunNext(q, ops[i], ops, n, a, oks, ends);
      oks, ends := oks + [ok], ends + [end];
    }
    RunKept(d.env, d.passed, d.world, n, a, ops, oks, ends);
  }

  /** The operation ended there: what was held then is kept from then on, and what it says it remembered was held. */
  ghost predicate EndedAt(env: Env, passed: seq<State>, op: Op, ok: bool, end: nat, dropped: set<Id>) {
    && 0 < end <= |passed| && AllKept(env, passed, end - 1, passed[end - 1], dropped)
    && (ok && op.DoRemember? ==> op.b.id in Holding(passed[end - 1]))
  }

  /** What was held when an operation ended has been held in every state since. */
  ghost predicate EndHolds(passed: seq<State>, w: State, end: nat, dropped: set<Id>) {
    && 0 < end <= |passed|
    && Lasting(passed[end - 1], w, dropped) && LastingSince(passed, end - 1, passed[end - 1], dropped)
  }

  /** What holds after each operation of a run that began at `n` in state `a`. */
  ghost predicate SoFar(passed: seq<State>, w: State, n: nat, a: State, ops: seq<Op>, oks: seq<bool>, ends: seq<nat>) {
    && Lasting(a, w, Forgotten(ops)) && LastingSince(passed, n, a, Forgotten(ops))
    && |oks| == |ends| <= |ops|
    && (forall i {:trigger EndHolds(passed, w, ends[i], Forgotten(ops))} | 0 <= i < |ends| ::
          EndHolds(passed, w, ends[i], Forgotten(ops)))
    && (forall i {:trigger ends[i]} | 0 <= i < |ends| && oks[i] && ops[i].DoRemember? ::
          0 < ends[i] <= |passed| && ops[i].b.id in Holding(passed[ends[i] - 1]))
    && (Strandless(ops) ==> Stranded(w) <= Stranded(a))
  }

  method RunNext(p: Packer, op: Op, ghost ops: seq<Op>, ghost n: nat, ghost a: State, ghost oks: seq<bool>,
                 ghost ends: seq<nat>)
    returns (q: Packer, ok: bool, ghost end: nat)
    requires p.Valid() && Legal(p.device.env, op)
    requires |ends| < |ops| && op == ops[|ends|] && SoFar(p.device.passed, p.device.world, n, a, ops, oks, ends)
    modifies p, p.device
    ensures q.Valid() && q.device == p.device && (q == p || fresh(q)) && old(p.device.passed) <= p.device.passed
    ensures SoFar(p.device.passed, p.device.world, n, a, ops, oks + [ok], ends + [end])
    ensures end == |p.device.passed|
  {
    ghost var w, before := p.device.world, p.device.passed;
    q, ok := StepOrCrash(p, op);
    end := |p.device.passed|;
    SoFarNext(before, p.device.passed, w, p.device.world, n, a, ops, oks, ends, ok, end, op, OpBounds(op, w));
  }

  lemma SoFarNext(before: seq<State>, passed: seq<State>, w: State, next: State, n: nat, a: State, ops: seq<Op>,
                  oks: seq<bool>, ends: seq<nat>, ok: bool, end: nat, op: Op, bounds: Bounds)
    requires |ends| < |ops| && SoFar(before, w, n, a, ops, oks, ends)
    requires op == ops[|ends|] && bounds == OpBounds(op, w)
    requires Went(before, passed, w, next, bounds) && end == |passed|
    requires ok && op.DoRemember? ==> op.b.id in Holding(next)
    ensures SoFar(passed, next, n, a, ops, oks + [ok], ends + [end])
  {
    var dropped, all := Forgotten(ops), ends + [end];
    assert op in ops;
    StillLasting(before, passed, n, a, w, next, op, dropped);
    forall i | 0 <= i < |all| ensures EndHolds(passed, next, all[i], dropped) {
      if i < |ends| {
        assert EndHolds(before, w, ends[i], dropped);
        StillHolds(before, passed, w, next, ends[i], op, dropped);
      } else {
        JustEnded(passed, next, dropped);
      }
    }
    forall i | 0 <= i < |ends| && oks[i] && ops[i].DoRemember?
      ensures ops[i].b.id in Holding(passed[ends[i] - 1])
    {
      assert passed[ends[i] - 1] == before[ends[i] - 1];
    }
  }

  lemma StillHolds(before: seq<State>, passed: seq<State>, w: State, next: State, end: nat, op: Op, dropped: set<Id>)
    requires before <= passed && EndHolds(before, w, end, dropped)
    requires op.DoForget? ==> op.id in dropped
    requires Trace(passed, |before|, w, OpBounds(op, w)) && Within(OpBounds(op, w), w, next)
    ensures EndHolds(passed, next, end, dropped)
  {
    assert passed[end - 1] == before[end - 1];
    StillLasting(before, passed, end - 1, before[end - 1], w, next, op, dropped);
  }

  lemma JustEnded(passed: seq<State>, w: State, dropped: set<Id>)
    requires passed != [] && passed[|passed| - 1] == w
    ensures EndHolds(passed, w, |passed|, dropped)
  {
  }

  lemma RunKept(env: Env, passed: seq<State>, w: State, n: nat, a: State, ops: seq<Op>, oks: seq<bool>,
                ends: seq<nat>)
    requires (forall v <- passed :: Safe(env, v)) && SoFar(passed, w, n, a, ops, oks, ends)
    ensures AllKept(env, passed, n, a, Forgotten(ops))
    ensures forall i :: 0 <= i < |ends| ==> EndedAt(env, passed, ops[i], oks[i], ends[i], Forgotten(ops))
    ensures Strandless(ops) ==> Stranded(w) <= Stranded(a)
  {
    LastingIsKept(env, passed, n, a, Forgotten(ops));
    forall i | 0 <= i < |ends| ensures EndedAt(env, passed, ops[i], oks[i], ends[i], Forgotten(ops)) {
      assert EndHolds(passed, w, ends[i], Forgotten(ops));
      LastingIsKept(env, passed, ends[i] - 1, passed[ends[i] - 1], Forgotten(ops));
    }
  }

  lemma LastingIsKept(env: Env, passed: seq<State>, n: nat, a: State, dropped: set<Id>)
    requires (forall w <- passed :: Safe(env, w)) && LastingSince(passed, n, a, dropped)
    ensures AllKept(env, passed, n, a, dropped)
  {
    forall id, i | id in Holding(a) - dropped && n <= i < |passed| ensures Kept(env, passed[i], id) {
      assert Lasting(a, passed[i], dropped);
      HeldIsKept(env, passed[i], id);
    }
  }

  lemma StillLasting(before: seq<State>, passed: seq<State>, n: nat, a: State, w: State, next: State,
                     op: Op, dropped: set<Id>)
    requires before <= passed && LastingSince(before, n, a, dropped) && Lasting(a, w, dropped)
    requires op.DoForget? ==> op.id in dropped
    requires Trace(passed, |before|, w, OpBounds(op, w)) && Within(OpBounds(op, w), w, next)
    ensures LastingSince(passed, n, a, dropped) && Lasting(a, next, dropped)
    ensures !op.DoRepack? ==> Stranded(next) <= Stranded(w)
  {
    BoundsDrop(op, w, dropped);
    LastingStep(a, w, next, OpBounds(op, w), dropped);
    forall i | n <= i < |passed| ensures Lasting(a, passed[i], dropped) {
      if i < |before| {
        assert passed[i] == before[i];
      } else {
        LastingStep(a, w, passed[i], OpBounds(op, w), dropped);
      }
    }
  }

  lemma BoundsDrop(op: Op, w: State, dropped: set<Id>)
    requires op.DoForget? ==> op.id in dropped
    ensures OpBounds(op, w).dropped <= dropped
    ensures !op.DoRepack? ==> OpBounds(op, w).stranded == {}
  {
  }

  lemma LastingStep(a: State, w: State, next: State, b: Bounds, dropped: set<Id>)
    requires Lasting(a, w, dropped) && Within(b, w, next) && b.dropped <= dropped
    ensures Lasting(a, next, dropped)
  {
  }
}
