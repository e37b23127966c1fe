/** Any number of processes queueing, claiming, writing, failing and dying over one queue table. */
module FlushProtocol {
  import opened Bytes
  import opened Records
  import opened Queue

  /** Where a process is between claiming rows and dropping them. */
  datatype Phase =
    | Idle
    | Writing(batch: seq<Blob>)                  // the batch is on its way to the network
    | Refused(batch: seq<Blob>)                  // the network refused it; the rows are to be handed back
    | Cataloguing(batch: seq<Blob>, done: nat)   // written; the first `done` records are catalogued

  /** The table and the catalog are on disk; the phases die with their processes. */
  datatype State = State(
    table: Table,
    now: int,
    procs: map<nat, Phase>,
    minted: map<Id, Blob>,       // what was last enqueued for each record
    recorded: map<Id, Bytes>)    // for each catalogued record, what its object holds

  const START := State(map[], 0, map[], map[], map[])

  function PhaseOf(s: State, p: nat): Phase { if p in s.procs then s.procs[p] else Idle }

  datatype Step =
    | Add(b: Blob, s: nat)
    | Tick(elapsed: nat)
    | ClaimRows(p: nat, out: seq<Blob>)
    | WriteFails(p: nat)
    | Release(p: nat)
    | WriteSucceeds(p: nat)
    | RecordNext(p: nat)
    | Drop(p: nat)
    | Dies(p: nat)               // the process crashes, or gives up after a failed bookkeeping call

  /** The object a record is paired with: the last one of the batch written under its content id. */
  function Paired(batch: seq<Blob>, cid: Bytes): Option<Blob> {
    if batch == [] then None
    else if batch[|batch| - 1].cid == cid then Some(batch[|batch| - 1])
    else Paired(batch[..|batch| - 1], cid)
  }

  ghost predicate Enabled(s: State, step: Step, grace: int) {
    match step
    case Add(b, n) => NextSeq(s.table, n)
    case Tick(_) => true
    case ClaimRows(p, out) =>
      && PhaseOf(s, p) == Idle && out != []
      && InArrivalOrder(s.table, TakeableIn(s.table, s.now, grace), out)
    case WriteFails(p) => PhaseOf(s, p).Writing?
    case WriteSucceeds(p) => PhaseOf(s, p).Writing?
    case Release(p) => PhaseOf(s, p).Refused?
    case RecordNext(p) => PhaseOf(s, p).Cataloguing? && PhaseOf(s, p).done < |PhaseOf(s, p).batch|
    case Drop(p) => PhaseOf(s, p).Cataloguing? && PhaseOf(s, p).done == |PhaseOf(s, p).batch|
    case Dies(p) => true
  }

  ghost function Apply(s: State, step: Step, grace: int): State
    requires Enabled(s, step, grace)
  {
    match step
    case Add(b, n) => s.(table := Enqueued(s.table, b, n), minted := s.minted[b.id := b])
    case Tick(elapsed) => s.(now := s.now + elapsed)
    case ClaimRows(p, out) =>
      s.(table := Claimed(s.table, IdsIn(out), s.now, p), procs := s.procs[p := Writing(out)])
    case WriteFails(p) => s.(procs := s.procs[p := Refused(PhaseOf(s, p).batch)])
    case Release(p) =>
      s.(table := Released(s.table, IdsIn(PhaseOf(s, p).batch)), procs := s.procs[p := Idle])
    case WriteSucceeds(p) => s.(procs := s.procs[p := Cataloguing(PhaseOf(s, p).batch, 0)])
    case RecordNext(p) =>
      var batch, done := PhaseOf(s, p).batch, PhaseOf(s, p).done;
      PairedIsThere(batch, done);
      s.(recorded := s.recorded[batch[done].id := Paired(batch, batch[done].cid).value.payload],
         procs := s.procs[p := Cataloguing(batch, done + 1)])
    case Drop(p) =>
      s.(table := Dropped(s.table, IdsIn(PhaseOf(s, p).batch)), procs := s.procs[p := Idle])
    case Dies(p) => s.(procs := s.procs[p := Idle])
  }

  lemma {:induction false} PairedIsThere(batch: seq<Blob>, k: nat)
    requires k < |batch|
    ensures Paired(batch, batch[k].cid).Some?
    decreases |batch|
  {
    if k < |batch| - 1 {
      PairedIsThere(batch[..|batch| - 1], k);
    }
  }

  lemma {:induction false} PairedIsOwn(batch: seq<Blob>, k: nat)
    requires k < |batch| && forall j :: 0 <= j < |batch| && j != k ==> batch[j].cid != batch[k].cid
    ensures Paired(batch, batch[k].cid) == Some(batch[k])
    decreases |batch|
  {
    if k < |batch| - 1 {
      PairedIsOwn(batch[..|batch| - 1], k);
    }
  }

  /** A run: each step enabled in the state the one before it led to. */
  ghost predicate RunTo(s: State, steps: seq<Step>, grace: int, end: State)
    decreases |steps|
  {
    if steps == [] then end == s
    else Enabled(s, steps[0], grace) && RunTo(Apply(s, steps[0], grace), steps[1..], grace, end)
  }

  // ---------- nothing queued is ever lost ----------

  /** Record ids are minted once, and distinct records have distinct content ids. */
  ghost predicate Minted(s: State, step: Step) {
    step.Add? ==> step.b.id !in s.minted && forall id <- s.minted :: s.minted[id].cid != step.b.cid
  }

  ghost predicate AllMinted(s: State, steps: seq<Step>, grace: int)
    decreases |steps|
  {
    steps == [] || (Enabled(s, steps[0], grace) ==>
                      Minted(s, steps[0]) && AllMinted(Apply(s, steps[0], grace), steps[1..], grace))
  }

  ghost predicate Queued(s: State, id: Id) { id in s.table && id in s.minted && s.table[id].blob == s.minted[id] }

  /** The record is catalogued at an object that holds its own frame. */
  ghost predicate OnNetwork(s: State, id: Id) {
    id in s.recorded && id in s.minted && s.recorded[id] == s.minted[id].payload
  }

  ghost predicate Genuine(s: State, b: Blob) { b.id in s.minted && s.minted[b.id] == b }

  /** The batch may yet be catalogued and dropped; one the network refused can only be handed back. */
  predicate Underway(phase: Phase) { phase.Writing? || phase.Cataloguing? }

  ghost predicate PhaseOk(s: State, phase: Phase) {
    && (Underway(phase) ==> forall b {:trigger Genuine(s, b)} | b in phase.batch :: Genuine(s, b))
    && (Underway(phase) ==> forall i, j :: 0 <= i < j < |phase.batch| ==> phase.batch[i].id != phase.batch[j].id)
    && (phase.Cataloguing? ==> phase.done <= |phase.batch| && FirstOnNetwork(s, phase.batch, phase.done))
  }

  ghost predicate FirstOnNetwork(s: State, batch: seq<Blob>, done: nat)
    requires done <= |batch|
  {
    forall i {:trigger OnNetwork(s, batch[i].id)} | 0 <= i < done :: OnNetwork(s, batch[i].id)
  }

  ghost predicate Held(s: State) {
    forall id {:trigger Queued(s, id)} {:trigger OnNetwork(s, id)} | id in s.minted :: Queued(s, id) || OnNetwork(s, id)
  }

  ghost predicate Inv(s: State) {
    && Held(s) && Ordered(s.table)
    && (forall id {:trigger Queued(s, id)} | id in s.table :: Queued(s, id))
    && MintsDiffer(s.minted) && PhasesOk(s)
  }

  ghost predicate MintsDiffer(minted: map<Id, Blob>) {
    && (forall id <- minted :: minted[id].id == id)
    && (forall a, b :: a in minted && b in minted && a != b ==> minted[a].cid != minted[b].cid)
  }

  lemma MintedNext(minted: map<Id, Blob>, b: Blob)
    requires MintsDiffer(minted) && b.id !in minted && forall id <- minted :: minted[id].cid != b.cid
    ensures MintsDiffer(minted[b.id := b])
  {
  }

  lemma EnqueuedNext(t: Table, b: Blob, n: nat)
    requires Ordered(t) && NextSeq(t, n) && b.id !in t
    ensures Enqueued(t, b, n) == t[b.id := Row(b, n, Unclaimed)] && Ordered(Enqueued(t, b, n))
  {
  }

  /** Nothing already minted changes, and nothing already on the network leaves it. */
  ghost predicate Extends(s: State, next: State) {
    && (forall id {:trigger id in next.minted} | id in s.minted :: id in next.minted && next.minted[id] == s.minted[id])
    && (forall id {:trigger OnNetwork(next, id)} | OnNetwork(s, id) :: OnNetwork(next, id))
  }

  lemma PhaseStays(s: State, next: State, phase: Phase)
    requires Extends(s, next) && PhaseOk(s, phase)
    ensures PhaseOk(next, phase)
  {
    if Underway(phase) {
      forall b | b in phase.batch ensures Genuine(next, b) {
        assert Genuine(s, b);
      }
    }
    if phase.Cataloguing? {
      forall i | 0 <= i < phase.done ensures OnNetwork(next, phase.batch[i].id) {
        assert OnNetwork(s, phase.batch[i].id);
      }
    }
  }

  ghost predicate PhasesOk(s: State) {
    forall p {:trigger PhaseOf(s, p)} | p in s.procs :: PhaseOk(s, PhaseOf(s, p))
  }

  /** A step that moves one process leaves the others as they were. */
  lemma PhasesStay(s: State, next: State, p: nat, phase: Phase)
    requires PhasesOk(s) && Extends(s, next) && PhaseOk(next, phase)
    requires next.procs == s.procs[p := phase] || next.procs == s.procs
    ensures PhasesOk(next)
  {
    forall q | q in next.procs ensures PhaseOk(next, PhaseOf(next, q)) {
      if q in s.procs && next.procs[q] == s.procs[q] {
        assert PhaseOf(next, q) == PhaseOf(s, q);
        PhaseStays(s, next, PhaseOf(s, q));
      }
    }
  }

  lemma PhaseIsOk(s: State, p: nat)
    requires PhasesOk(s)
    ensures PhaseOk(s, PhaseOf(s, p))
  {
  }

  lemma AddExtends(s: State, next: State, b: Blob)
    requires b.id !in s.minted && next.minted == s.minted[b.id := b] && next.recorded == s.recorded
    ensures Extends(s, next)
  {
    forall id | OnNetwork(s, id) ensures OnNetwork(next, id) {
    }
  }

  lemma AddKeeps(s: State, b: Blob, n: nat)
    requires Inv(s) && NextSeq(s.table, n) && b.id !in s.minted
    requires forall id <- s.minted :: s.minted[id].cid != b.cid
    ensures Inv(s.(table := Enqueued(s.table, b, n), minted := s.minted[b.id := b]))
  {
    var next := s.(table := Enqueued(s.table, b, n), minted := s.minted[b.id := b]);
    assert b.id !in s.table by {
      assert b.id in s.table ==> Queued(s, b.id);
    }
    EnqueuedNext(s.table, b, n);
    MintedNext(s.minted, b);
    AddExtends(s, next, b);
    PhasesStay(s, next, 0, Idle);
    forall id | id in next.minted ensures Queued(next, id) || OnNetwork(next, id) {
      assert id in s.minted ==> Queued(s, id) || OnNetwork(s, id);
    }
    forall id | id in next.table ensures Queued(next, id) {
      assert id in s.table ==> Queued(s, id);
    }
  }

  /** Stamping or clearing claims moves nothing in or out of the table. */
  lemma ClaimsKeep(s: State, table: Table, p: nat, phase: Phase)
    requires Inv(s) && table.Keys == s.table.Keys && PhaseOk(s, phase)
    requires forall id <- table :: table[id].blob == s.table[id].blob && table[id].seqNo == s.table[id].seqNo
    ensures Inv(s.(table := table, procs := s.procs[p := phase]))
  {
    var next := s.(table := table, procs := s.procs[p := phase]);
    assert Extends(s, next);
    PhaseStays(s, next, phase);
    PhasesStay(s, next, p, phase);
    forall id | id in next.table ensures Queued(next, id) {
      assert Queued(s, id);
    }
    forall id | id in next.minted ensures Queued(next, id) || OnNetwork(next, id) {
      assert Queued(s, id) || OnNetwork(s, id);
    }
  }

  lemma ClaimedPhase(s: State, out: seq<Blob>, ids: set<Id>)
    requires Inv(s) && InArrivalOrder(s.table, ids, out)
    ensures PhaseOk(s, Writing(out))
  {
    forall b | b in out ensures Genuine(s, b) {
      assert Queued(s, b.id);
    }
  }

  lemma RecordKeeps(s: State, p: nat)
    requires Inv(s) && PhaseOf(s, p).Cataloguing? && PhaseOf(s, p).done < |PhaseOf(s, p).batch|
    ensures Inv(Apply(s, RecordNext(p), 0))
  {
    var batch, done := PhaseOf(s, p).batch, PhaseOf(s, p).done;
    var b := batch[done];
    var next := Apply(s, RecordNext(p), 0);
    PhaseIsOk(s, p);
    assert Genuine(s, b);
    forall j | 0 <= j < |batch| && j != done ensures batch[j].cid != b.cid {
      assert Genuine(s, batch[j]);
    }
    PairedIsOwn(batch, done);
    assert next.recorded == s.recorded[b.id := b.payload];
    assert Extends(s, next);
    PhaseStays(s, next, PhaseOf(s, p));
    assert OnNetwork(next, b.id);
    PhasesStay(s, next, p, Cataloguing(batch, done + 1));
    forall id | id in next.minted ensures Queued(next, id) || OnNetwork(next, id) {
      assert Queued(s, id) || OnNetwork(s, id);
    }
    forall id | id in next.table ensures Queued(next, id) {
      assert Queued(s, id);
    }
  }

  /** Dropping is safe because it comes last: every record of the batch has been catalogued. */
  lemma DropKeeps(s: State, p: nat)
    requires Inv(s) && PhaseOf(s, p).Cataloguing? && PhaseOf(s, p).done == |PhaseOf(s, p).batch|
    ensures Inv(Apply(s, Drop(p), 0))
  {
    var batch := PhaseOf(s, p).batch;
    var next := Apply(s, Drop(p), 0);
    PhaseIsOk(s, p);
    assert Extends(s, next);
    PhasesStay(s, next, p, Idle);
    forall id | id in next.minted ensures Queued(next, id) || OnNetwork(next, id) {
      assert Queued(s, id) || OnNetwork(s, id);
      if id in IdsIn(batch) {
        var i :| 0 <= i < |batch| && batch[i].id == id;
        assert OnNetwork(s, batch[i].id);
      }
    }
    forall id | id in next.table ensures Queued(next, id) {
      assert Queued(s, id);
    }
  }

  lemma TickKeeps(s: State, elapsed: nat, grace: int)
    requires Inv(s) && Enabled(s, Tick(elapsed), grace)
    ensures Inv(Apply(s, Tick(elapsed), grace))
  {
    var next := Apply(s, Tick(elapsed), grace);
    assert Extends(s, next);
    PhasesStay(s, next, 0, Idle);
    forall id | id in next.minted ensures Queued(next, id) || OnNetwork(next, id) {
      assert Queued(s, id) || OnNetwork(s, id);
    }
    forall id | id in next.table ensures Queued(next, id) {
      assert Queued(s, id);
    }
  }

  lemma ClaimKeeps(s: State, p: nat, out: seq<Blob>, grace: int)
    requires Inv(s) && Enabled(s, ClaimRows(p, out), grace)
    ensures Inv(Apply(s, ClaimRows(p, out), grace))
  {
    ClaimedPhase(s, out, IdsIn(out));
    ClaimsKeep(s, Claimed(s.table, IdsIn(out), s.now, p), p, Writing(out));
  }

  lemma WriteKeeps(s: State, step: Step, p: nat, grace: int)
    requires Inv(s) && Enabled(s, step, grace) && (step == WriteFails(p) || step == WriteSucceeds(p))
    ensures Inv(Apply(s, step, grace))
  {
    PhaseIsOk(s, p);
    if step.WriteFails? {
      ClaimsKeep(s, s.table, p, Refused(PhaseOf(s, p).batch));
    } else {
      ClaimsKeep(s, s.table, p, Cataloguing(PhaseOf(s, p).batch, 0));
    }
  }

  lemma StepKeeps(s: State, step: Step, grace: int)
    requires Inv(s) && Enabled(s, step, grace) && Minted(s, step)
    ensures Inv(Apply(s, step, grace))
  {
    match step
    case Add(b, n) => AddKeeps(s, b, n);
    case Tick(elapsed) => TickKeeps(s, elapsed, grace);
    case ClaimRows(p, out) => ClaimKeeps(s, p, out, grace);
    case WriteFails(p) => WriteKeeps(s, step, p, grace);
    case Release(p) => ClaimsKeep(s, Released(s.table, IdsIn(PhaseOf(s, p).batch)), p, Idle);
    case WriteSucceeds(p) => WriteKeeps(s, step, p, grace);
    case RecordNext(p) => RecordKeeps(s, p);
    case Drop(p) => DropKeeps(s, p);
    case Dies(p) => ClaimsKeep(s, s.table, p, Idle);
  }

  lemma {:induction false} RunKeeps(s: State, steps: seq<Step>, grace: int, end: State)
    requires Inv(s) && RunTo(s, steps, grace, end) && AllMinted(s, steps, grace)
    ensures Inv(end)
    decreases |steps|
  {
    if steps != [] {
      StepKeeps(s, steps[0], grace);
      RunKeeps(Apply(s, steps[0], grace), steps[1..], grace, end);
    }
  }

  /**
   * Whatever any number of processes do and wherever they die, every record ever enqueued is still in
   * the queue as it was enqueued, or catalogued at an object holding its own frame.
   */
  lemma NothingQueuedIsLost(steps: seq<Step>, grace: int, end: State, id: Id)
    requires RunTo(START, steps, grace, end) && AllMinted(START, steps, grace) && id in end.minted
    ensures Queued(end, id) || OnNetwork(end, id)
  {
    RunKeeps(START, steps, grace, end);
  }

  // ---------- a claim is respected for its grace period ----------

  /** The step hands the row back or removes it. */
  predicate LetsGo(s: State, step: Step, id: Id) {
    match step
    case Release(p) => !PhaseOf(s, p).Idle? && id in IdsIn(PhaseOf(s, p).batch)
    case Drop(p) => !PhaseOf(s, p).Idle? && id in IdsIn(PhaseOf(s, p).batch)
    case _ => false
  }

  ghost predicate NeverLetGo(s: State, steps: seq<Step>, grace: int, id: Id)
    decreases |steps|
  {
    steps == [] || (Enabled(s, steps[0], grace) ==>
                      !LetsGo(s, steps[0], id) && NeverLetGo(Apply(s, steps[0], grace), steps[1..], grace, id))
  }

  /** The row has been claimed at or after `t`. */
  ghost predicate ClaimedSince(s: State, id: Id, t: int) {
    id in s.table && s.table[id].claim.ClaimedBy? && t <= s.table[id].claim.at && t <= s.now
  }

  lemma StepKeepsClaim(s: State, step: Step, grace: int, id: Id, t: int)
    requires ClaimedSince(s, id, t) && Enabled(s, step, grace) && !LetsGo(s, step, id)
    ensures ClaimedSince(Apply(s, step, grace), id, t)
  {
  }

  lemma {:induction false} RunKeepsClaim(s: State, steps: seq<Step>, grace: int, end: State, id: Id, t: int)
    requires ClaimedSince(s, id, t) && RunTo(s, steps, grace, end) && NeverLetGo(s, steps, grace, id)
    ensures ClaimedSince(end, id, t)
    decreases |steps|
  {
    if steps != [] {
      StepKeepsClaim(s, steps[0], grace, id, t);
      RunKeepsClaim(Apply(s, steps[0], grace), steps[1..], grace, end, id, t);
    }
  }

  /**
   * Once a claim has taken a row, no claim takes it again until the grace period has passed, unless a
   * process handed it back or dropped it in between.
   */
  lemma ClaimIsRespected(s: State, p: nat, out: seq<Blob>, id: Id, steps: seq<Step>, grace: int,
                         later: State, q: nat, again: seq<Blob>)
    requires grace > 0 && id in IdsIn(out) && Enabled(s, ClaimRows(p, out), grace)
    requires var claimed := Apply(s, ClaimRows(p, out), grace);
      RunTo(claimed, steps, grace, later) && NeverLetGo(claimed, steps, grace, id)
    requires Enabled(later, ClaimRows(q, again), grace) && id in IdsIn(again)
    ensures later.now > s.now + grace
  {
    var claimed := Apply(s, ClaimRows(p, out), grace);
    assert ClaimedSince(claimed, id, s.now);
    RunKeepsClaim(claimed, steps, grace, later, id, s.now);
    assert id in TakeableIn(later.table, later.now, grace);
  }

  // ---------- a dead process strands nothing ----------

  ghost predicate ClaimsInPast(s: State) {
    forall id <- s.table :: s.table[id].claim.ClaimedBy? ==> s.table[id].claim.at <= s.now
  }

  lemma {:induction false} RunKeepsPast(s: State, steps: seq<Step>, grace: int, end: State)
    requires ClaimsInPast(s) && RunTo(s, steps, grace, end)
    ensures ClaimsInPast(end)
    decreases |steps|
  {
    if steps != [] {
      RunKeepsPast(Apply(s, steps[0], grace), steps[1..], grace, end);
    }
  }

  /** Whoever holds a row, and however they ended, it is there for the next claim once the grace has passed. */
  lemma ExpiryFreesEverything(steps: seq<Step>, grace: nat, end: State, wait: nat)
    requires RunTo(START, steps, grace, end) && wait > grace
    ensures TakeableIn(end.table, end.now + wait, grace) == end.table.Keys
  {
    RunKeepsPast(START, steps, grace, end);
  }

  // ---------- one process is enough ----------

  lemma LastRow(t: Table, ids: set<Id>) returns (last: Id)
    requires Ordered(t) && ids != {} && ids <= t.Keys
    ensures last in ids && forall id <- ids :: id != last ==> t[id].seqNo < t[last].seqNo
    decreases |ids|
  {
    last :| last in ids;
    if ids != {last} {
      var other := LastRow(t, ids - {last});
      if t[last].seqNo < t[other].seqNo {
        last := other;
      }
    }
  }

  /** Any rows can be put in arrival order. */
  lemma {:induction false} Arrange(t: Table, ids: set<Id>) returns (out: seq<Blob>)
    requires Ordered(t) && ids <= t.Keys
    ensures InArrivalOrder(t, ids, out)
    decreases |ids|
  {
    out := [];
    if ids != {} {
      var last := LastRow(t, ids);
      var front := Arrange(t, ids - {last});
      forall b | b in front ensures t[b.id].seqNo < t[last].seqNo {
        assert b.id in IdsIn(front);
      }
      InOrderNext(t, ids - {last}, front, last);
      out := front + [t[last].blob];
      assert ids - {last} + {last} == ids;
    }
  }

  /** Nothing is enqueued, and nobody but this process does anything. */
  ghost predicate Alone(steps: seq<Step>, p: nat) {
    forall step <- steps :: !step.Add? && (step.Tick? || step.p == p)
  }

  /** A process left alone catalogues the rest of its batch and drops it. */
  lemma {:induction false} Completes(s: State, p: nat, grace: int) returns (steps: seq<Step>, end: State)
    requires PhaseOf(s, p).Cataloguing? && PhaseOf(s, p).done <= |PhaseOf(s, p).batch|
    ensures RunTo(s, steps, grace, end) && Alone(steps, p) && end.minted == s.minted
    ensures end.table == Dropped(s.table, IdsIn(PhaseOf(s, p).batch)) && PhaseOf(end, p) == Idle
    decreases |PhaseOf(s, p).batch| - PhaseOf(s, p).done
  {
    if PhaseOf(s, p).done == |PhaseOf(s, p).batch| {
      end, steps := Apply(s, Drop(p), grace), [Drop(p)];
      assert RunTo(end, steps[1..], grace, end);
    } else {
      var rest;
      rest, end := Completes(Apply(s, RecordNext(p), grace), p, grace);
      steps := [RecordNext(p)] + rest;
      assert steps[1..] == rest;
    }
  }

  /** With every row free, one flush empties the queue. */
  lemma FlushesAll(s: State, p: nat, grace: int) returns (steps: seq<Step>, end: State)
    requires Ordered(s.table) && PhaseOf(s, p) == Idle && TakeableIn(s.table, s.now, grace) == s.table.Keys
    requires s.table != map[]
    ensures RunTo(s, steps, grace, end) && Alone(steps, p) && end.minted == s.minted
    ensures end.table == map[] && PhaseOf(end, p) == Idle
  {
    var out := Arrange(s.table, s.table.Keys);
    var id :| id in s.table;
    assert id in IdsIn(out);
    var claimed := Apply(s, ClaimRows(p, out), grace);
    var rest;
    rest, end := WritesAll(claimed, p, grace);
    steps := [ClaimRows(p, out)] + rest;
    assert steps[1..] == rest;
    NoneLeft(s.table, s.now, p);
  }

  lemma NoneLeft(t: Table, now: int, owner: nat)
    ensures Dropped(Claimed(t, t.Keys, now, owner), t.Keys) == map[]
  {
  }

  lemma WritesAll(s: State, p: nat, grace: int) returns (steps: seq<Step>, end: State)
    requires PhaseOf(s, p).Writing?
    ensures RunTo(s, steps, grace, end) && Alone(steps, p) && end.minted == s.minted
    ensures end.table == Dropped(s.table, IdsIn(PhaseOf(s, p).batch)) && PhaseOf(end, p) == Idle
  {
    var rest;
    rest, end := Completes(Apply(s, WriteSucceeds(p), grace), p, grace);
    steps := [WriteSucceeds(p)] + rest;
    assert steps[1..] == rest;
  }

  /**
   * From any state any number of processes can reach, wherever they stopped, any one process that is
   * not flushing can go on alone to an empty queue with every record ever enqueued on the network.
   */
  lemma QueueDrains(before: seq<Step>, s: State, p: nat, grace: nat) returns (steps: seq<Step>, end: State)
    requires RunTo(START, before, grace, s) && AllMinted(START, before, grace) && PhaseOf(s, p) == Idle
    ensures RunTo(s, steps, grace, end) && Alone(steps, p)
    ensures end.table == map[] && PhaseOf(end, p) == Idle && end.minted == s.minted
    ensures forall id <- s.minted :: OnNetwork(end, id)
  {
    RunKeeps(START, before, grace, s);
    ExpiryFreesEverything(before, grace, s, grace + 1);
    var waited := Apply(s, Tick(grace + 1), grace);
    var rest;
    rest, end := [], waited;
    if waited.table != map[] {
      rest, end := FlushesAll(waited, p, grace);
    }
    steps := [Tick(grace + 1)] + rest;
    assert steps[1..] == rest;
    AddsNothing(s, steps, grace);
    RunKeeps(s, steps, grace, end);
    forall id | id in s.minted ensures OnNetwork(end, id) {
      assert Queued(end, id) || OnNetwork(end, id);
    }
  }

  // ---------- why ids must be minted once ----------

  /** A process is still to catalogue and drop a batch that holds this blob. */
  predicate Carrying(s: State, p: nat, b: Blob) { Underway(PhaseOf(s, p)) && b in PhaseOf(s, p).batch }

  ghost predicate Loses(s: State, steps: seq<Step>, grace: int, end: State, id: Id) {
    && RunTo(s, steps, grace, end) && AllMinted(s, steps, grace)
    && id in end.minted && !Queued(end, id) && !OnNetwork(end, id)
  }

  ghost predicate CanLose(s: State, grace: int, id: Id) {
    exists steps, end :: Loses(s, steps, grace, end, id)
  }

  ghost predicate Separate(batch: seq<Blob>) {
    forall i, j :: 0 <= i < j < |batch| ==> batch[i].id != batch[j].id && batch[i].cid != batch[j].cid
  }

  ghost predicate NothingAdded(steps: seq<Step>) { forall step <- steps :: !step.Add? }

  lemma {:induction false} AddsNothing(s: State, steps: seq<Step>, grace: int)
    requires NothingAdded(steps)
    ensures AllMinted(s, steps, grace)
    decreases |steps|
  {
    if steps != [] && Enabled(s, steps[0], grace) {
      AddsNothing(Apply(s, steps[0], grace), steps[1..], grace);
    }
  }

  /** What the process does next, left alone: catalogue the rest of its batch, then drop all of it. */
  lemma {:induction false} Finish(s: State, p: nat, grace: int, k: nat) returns (steps: seq<Step>, end: State)
    requires PhaseOf(s, p).Cataloguing? && PhaseOf(s, p).done <= |PhaseOf(s, p).batch|
    requires k < |PhaseOf(s, p).batch| && Separate(PhaseOf(s, p).batch)
    requires var b := PhaseOf(s, p).batch[k];
      k < PhaseOf(s, p).done ==> b.id in s.recorded && s.recorded[b.id] == b.payload
    ensures RunTo(s, steps, grace, end) && NothingAdded(steps) && end.minted == s.minted
    ensures var b := PhaseOf(s, p).batch[k];
      b.id !in end.table && b.id in end.recorded && end.recorded[b.id] == b.payload
    decreases |PhaseOf(s, p).batch| - PhaseOf(s, p).done
  {
    var batch, done := PhaseOf(s, p).batch, PhaseOf(s, p).done;
    if done == |batch| {
      end, steps := Apply(s, Drop(p), grace), [Drop(p)];
      assert batch[k] in batch;
      assert RunTo(end, steps[1..], grace, end);
    } else {
      PairedIsOwn(batch, done);
      var next := Apply(s, RecordNext(p), grace);
      var rest;
      rest, end := Finish(next, p, grace, k);
      steps := [RecordNext(p)] + rest;
      assert steps[1..] == rest;
    }
  }

  lemma CarriedIsLost(s: State, p: nat, b: Blob, c: Blob, n: nat, grace: int)
    requires Inv(s) && NextSeq(s.table, n) && c.id == b.id && c.payload != b.payload && Carrying(s, p, b)
    ensures CanLose(Apply(s, Add(c, n), grace), grace, c.id)
  {
    var added := Apply(s, Add(c, n), grace);
    var batch := PhaseOf(s, p).batch;
    PhaseIsOk(s, p);
    forall i, j | 0 <= i < j < |batch| ensures batch[i].id != batch[j].id && batch[i].cid != batch[j].cid {
      assert Genuine(s, batch[i]) && Genuine(s, batch[j]);
    }
    var k :| 0 <= k < |batch| && batch[k] == b;
    assert Genuine(s, batch[k]);
    var steps, end;
    if PhaseOf(s, p).Writing? {
      var rest;
      rest, end := Finish(Apply(added, WriteSucceeds(p), grace), p, grace, k);
      steps := [WriteSucceeds(p)] + rest;
      assert steps[1..] == rest;
    } else {
      assert k < PhaseOf(s, p).done ==> OnNetwork(s, batch[k].id);
      steps, end := Finish(added, p, grace, k);
    }
    AddsNothing(added, steps, grace);
    assert Loses(added, steps, grace, end, c.id);
  }

  lemma UncarriedIsKept(s: State, c: Blob, n: nat, grace: int)
    requires Inv(s) && NextSeq(s.table, n) && c.id in s.minted && c.kind == s.minted[c.id].kind
    requires forall id <- s.minted :: id != c.id ==> s.minted[id].cid != c.cid
    requires forall p :: !Carrying(s, p, s.minted[c.id])
    ensures Inv(Apply(s, Add(c, n), grace))
  {
    var next := Apply(s, Add(c, n), grace);
    QueuedAgain(s, c, n, next);
    forall p | p in next.procs ensures PhaseOk(next, PhaseOf(next, p)) {
      PhaseIsOk(s, p);
      assert !Carrying(s, p, s.minted[c.id]);
      UncarriedPhase(s, next, PhaseOf(s, p), c);
    }
  }

  /** The row named holds the new blob, and every other row is as it was. */
  ghost predicate Holding(t: Table, c: Blob, after: Table) {
    && after.Keys == t.Keys + {c.id} && after[c.id].blob == c
    && forall id {:trigger after[id]} | id in t && id != c.id :: after[id] == t[id]
  }

  lemma EnqueuedHolds(t: Table, c: Blob, n: nat)
    requires Ordered(t) && NextSeq(t, n) && (c.id in t ==> t[c.id].blob.kind == c.kind)
    ensures Holding(t, c, Enqueued(t, c, n)) && Ordered(Enqueued(t, c, n))
  {
  }

  /** The row now holds the new payload; no other record is affected. */
  lemma QueuedAgain(s: State, c: Blob, n: nat, next: State)
    requires Inv(s) && NextSeq(s.table, n) && c.id in s.minted && c.kind == s.minted[c.id].kind
    requires forall id <- s.minted :: id != c.id ==> s.minted[id].cid != c.cid
    requires next == s.(table := Enqueued(s.table, c, n), minted := s.minted[c.id := c])
    ensures Held(next) && Ordered(next.table) && MintsDiffer(next.minted)
    ensures forall id {:trigger Queued(next, id)} | id in next.table :: Queued(next, id)
  {
    assert c.id in s.table ==> Queued(s, c.id);
    EnqueuedHolds(s.table, c, n);
    RowsHold(s, c, next, next.table);
  }

  lemma RowsHold(s: State, c: Blob, next: State, table: Table)
    requires Inv(s) && c.id in s.minted && Holding(s.table, c, table)
    requires forall id <- s.minted :: id != c.id ==> s.minted[id].cid != c.cid
    requires next == s.(table := table, minted := s.minted[c.id := c])
    ensures Held(next) && MintsDiffer(next.minted)
    ensures forall id {:trigger Queued(next, id)} | id in next.table :: Queued(next, id)
  {
    forall id | id in next.table ensures Queued(next, id) {
      assert id in s.table ==> Queued(s, id);
    }
    forall id | id in next.minted ensures Queued(next, id) || OnNetwork(next, id) {
      assert Queued(s, id) || OnNetwork(s, id);
    }
  }

  /** A batch without the old blob is not affected by the new one. */
  lemma UncarriedPhase(s: State, next: State, phase: Phase, c: Blob)
    requires PhaseOk(s, phase) && c.id in s.minted && !(Underway(phase) && s.minted[c.id] in phase.batch)
    requires next.minted == s.minted[c.id := c] && next.recorded == s.recorded
    ensures PhaseOk(next, phase)
  {
    if Underway(phase) {
      forall b | b in phase.batch ensures Genuine(next, b) && b.id != c.id {
        assert Genuine(s, b);
      }
    }
    if phase.Cataloguing? {
      forall i | 0 <= i < phase.done ensures OnNetwork(next, phase.batch[i].id) {
        assert OnNetwork(s, phase.batch[i].id) && phase.batch[i] in phase.batch;
      }
    }
  }

  /**
   * Enqueueing a record again with a new payload can lose that payload exactly when some process is
   * still writing or cataloguing a batch that holds the old one: from any state a run can reach.
   */
  lemma ReEnqueueLosesExactly(before: seq<Step>, s: State, c: Blob, n: nat, grace: int)
    requires RunTo(START, before, grace, s) && AllMinted(START, before, grace) && NextSeq(s.table, n)
    requires c.id in s.minted && c.kind == s.minted[c.id].kind && c.payload != s.minted[c.id].payload
    requires forall id <- s.minted :: id != c.id ==> s.minted[id].cid != c.cid
    ensures CanLose(Apply(s, Add(c, n), grace), grace, c.id) <==> exists p :: Carrying(s, p, s.minted[c.id])
  {
    RunKeeps(START, before, grace, s);
    if p :| Carrying(s, p, s.minted[c.id]) {
      CarriedIsLost(s, p, s.minted[c.id], c, n, grace);
    } else {
      var added := Apply(s, Add(c, n), grace);
      UncarriedIsKept(s, c, n, grace);
      forall steps, end | Loses(added, steps, grace, end, c.id) ensures false {
        RunKeeps(added, steps, grace, end);
      }
    }
  }
}
