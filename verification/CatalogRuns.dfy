/** The catalog over whole runs: what survives any interleaving of writes, compactions and crashes. */
module CatalogRuns {
  import opened Bytes
  import opened Records
  import opened KeyedLog
  import opened ManifestLines
  import opened Manifest

  /**
   * One thing a process does to the catalog. `Reopen` is a crash or an exit, then a fresh load; `Die` is
   * a crash while the line is being written, then a fresh load.
   */
  datatype Op =
    | Append(entry: Entry, fault: Fault)
    | Remove(id: Id, now: int, fault: Fault)
    | Compact(fault: Fault)
    | Reopen
    | Die(entry: Entry)

  /** What a plain ordered map would hold: compaction, its failures and reopening do not show. */
  function After(out: seq<Entry>, op: Op): seq<Entry> {
    match op
    case Append(e, _) => Upsert(Key, out, e)
    case Remove(id, now, _) => Removed(out, id, now)
    case Compact(_) => out
    case Reopen => out
    case Die(_) => out
  }

  function AfterAll(out: seq<Entry>, ops: seq<Op>): seq<Entry>
    decreases |ops|
  {
    if ops == [] then out else After(AfterAll(out, ops[..|ops| - 1]), ops[|ops| - 1])
  }

  /** Loads the catalog from its two files; an entry too long for one line makes that impossible. */
  method Load(log: Log) returns (m: Manifest?)
    requires log.Valid()
    ensures m == null <==> exists e :: e in OnDisk(log) && !Fits(log.codec, e)
    ensures m != null ==> fresh(m) && m.Valid() && m.log == log && m.View() == Replay(Key, [], OnDisk(log))
  {
    var ok, entries, order := log.Replay();
    if !ok {
      return null;
    }
    m := new Manifest(log, entries, order);
  }

  /**
   * A process dies while appending and the next one loads the catalog: it has every entry there was,
   * with the new one exactly when no more than its newline was lost, or it cannot be loaded at all.
   */
  method LoadAfterDying(log: Log, e: Entry) returns (ok: bool, entries: map<Id, Entry>, order: seq<Id>, k: nat,
                                                     line: Bytes)
    requires log.Valid() && Authentic(log.codec.sealer) && Fits(log.codec, e)
    requires forall x <- OnDisk(log) :: Fits(log.codec, x)
    modifies log
    ensures IsLine(log.codec, line, e) && k <= |line| && Indexed(entries, order)
    ensures ok <==> k == 0 || k >= |line| - 1
    ensures ok ==> Listing(entries, order) == Replay(Key, [], old(OnDisk(log)) + if k == 0 then [] else [e])
    ensures NoJoins(log.codec) ==> CutShort(log, e, k, line)
    ensures OnDisk(log) == old(OnDisk(log))
  {
    ghost var snapshot, tail := log.snapshotEntries, log.logEntries;
    WholeFileReads(log.codec, log.snapshot, log.snapshotLines, snapshot);
    k, line := log.FailAppending(e);
    ok, entries, order := log.Replay();
    Onto(snapshot, tail, [e]);
  }

  lemma Onto(snapshot: seq<Entry>, tail: seq<Entry>, more: seq<Entry>)
    ensures snapshot + (tail + more) == (snapshot + tail) + more && (snapshot + tail) + [] == snapshot + tail
  {
  }

  /** The log ends in `k` bytes of this line, behind the entries it held. */
  ghost predicate CutShort(log: Log, e: Entry, k: nat, line: Bytes)
    reads log
  {
    && Good(log.codec) && Authentic(log.codec.sealer) && NoJoins(log.codec)
    && IsLine(log.codec, line, e) && Fits(log.codec, e) && k <= |line|
    && Holds(log.codec, log.snapshot, log.snapshotLines, log.snapshotEntries)
    && Holds(log.codec, Concat(log.logLines), log.logLines, log.logEntries)
    && (forall x <- OnDisk(log) :: Fits(log.codec, x))
    && log.file == Concat(log.logLines) + line[..k]
  }

  /** Appends further entries behind a line that was cut short, and loads what the log then holds. */
  method WriteOn(log: Log, e: Entry, k: nat, line: Bytes, later: seq<Entry>)
    returns (ok: bool, entries: map<Id, Entry>, order: seq<Id>)
    requires CutShort(log, e, k, line) && forall x <- later :: Fits(log.codec, x)
    modifies log
    ensures Indexed(entries, order) && (ok <==> ReadAfterCut(k, line, e, later).Some?)
    ensures ok ==>
      Listing(entries, order) == Replay(Key, [], old(OnDisk(log)) + ReadAfterCut(k, line, e, later).value)
  {
    ghost var lines := log.WriteLines(later);
    WholeFileReads(log.codec, log.snapshot, log.snapshotLines, log.snapshotEntries);
    CutThenMore(log.codec, log.logLines, log.logEntries, line, e, k, lines, later);
    ok, entries, order := log.Replay();
    if ok {
      Onto(log.snapshotEntries, log.logEntries, ReadAfterCut(k, line, e, later).value);
    }
  }

  /**
   * An append fails part way, or its sync does, and the process lives and appends further entries:
   * memory has those and not the one that failed. What the next process then loads has the one that
   * failed exactly when all of its line was written, and nothing at all can be loaded exactly when part
   * of it was and anything was written behind it, or more than its newline was lost. A compaction that
   * succeeds before that writes out what memory holds (`Manifest.Compact`).
   */
  method LiveOn(m: Manifest, e: Entry, later: seq<Entry>)
    returns (ok: bool, entries: map<Id, Entry>, order: seq<Id>, k: nat, line: Bytes)
    requires m.Valid() && Authentic(m.log.codec.sealer) && NoJoins(m.log.codec)
    requires Fits(m.log.codec, e) && (forall x <- OnDisk(m.log) :: Fits(m.log.codec, x))
    requires forall x <- later :: Fits(m.log.codec, x)
    modifies m, m.log
    ensures Indexed(m.entries, m.order) && Listing(m.entries, m.order) == Replay(Key, old(m.View()), later)
    ensures IsLine(m.log.codec, line, e) && k <= |line| && Indexed(entries, order)
    ensures ok <==> ReadAfterCut(k, line, e, later).Some?
    ensures ok ==>
      Listing(entries, order) == Replay(Key, [], old(OnDisk(m.log)) + ReadAfterCut(k, line, e, later).value)
  {
    k, line := m.log.FailAppending(e);
    m.RememberAll(later);
    ok, entries, order := WriteOn(m.log, e, k, line, later);
  }

  /**
   * The process dies in an append instead, and the next one loads the catalog and appends to it. The
   * load after that succeeds on the same terms: a catalog that lost only a newline loads, and once
   * anything is appended to it cannot be loaded again.
   */
  method DieThenWriteOn(log: Log, e: Entry, later: seq<Entry>)
    returns (first: bool, ok: bool, entries: map<Id, Entry>, order: seq<Id>, k: nat, line: Bytes)
    requires log.Valid() && Authentic(log.codec.sealer) && NoJoins(log.codec) && Fits(log.codec, e)
    requires (forall x <- OnDisk(log) :: Fits(log.codec, x)) && forall x <- later :: Fits(log.codec, x)
    modifies log
    ensures IsLine(log.codec, line, e) && k <= |line| && Indexed(entries, order)
    ensures first <==> k == 0 || k >= |line| - 1
    ensures ok <==> first && ReadAfterCut(k, line, e, later).Some?
    ensures ok ==>
      Listing(entries, order) == Replay(Key, [], old(OnDisk(log)) + ReadAfterCut(k, line, e, later).value)
    ensures first && !ok <==> 0 < k == |line| - 1 && later != []
  {
    first, entries, order, k, line := LoadAfterDying(log, e);
    if !first {
      return first, false, entries, order, k, line;
    }
    LineShape(log.codec, line, e);
    ok, entries, order := WriteOn(log, e, k, line, later);
  }

  /** What an operation came to: a process that died writing a line wrote none of it, or all. */
  ghost predicate CameTo(op: Op, did: Op) {
    did == op || (op.Die? && did == Append(op.entry, NoFault))
  }

  ghost predicate TooLong(log: Log)
    reads log
  {
    exists e :: e in OnDisk(log) && !Fits(log.codec, e)
  }

  /** What is in the file is what was there and a part of the entry's line, neither none of it nor all. */
  ghost predicate PartWritten(c: Codec, before: Bytes, file: Bytes, e: Entry) {
    exists line, k: nat :: IsLine(c, line, e) && 0 < k < |line| && file == before + line[..k]
  }

  /** The process dies in an append with none or all of the line written, and the next one loads; `torn` otherwise. */
  method DieAndLoad(log: Log, e: Entry) returns (m: Manifest?, torn: bool, ghost did: Op)
    requires log.Valid()
    modifies log
    ensures CameTo(Die(e), did)
    ensures m != null ==> fresh(m) && m.Valid() && m.log == log
    ensures m != null ==> m.View() == After(old(Replay(Key, [], OnDisk(log))), did)
    ensures m == null ==> torn || (log.Valid() && TooLong(log))
    ensures torn ==> m == null && PartWritten(log.codec, old(log.file), log.file, e)
  {
    ghost var before, disk := log.file, OnDisk(log);
    var k, line := log.FailAppending(e);
    m, torn, did := null, 0 < k < |line|, Die(e);
    if torn {
      return;
    }
    if k > 0 {
      did := Append(e, NoFault);
      Settle(log, e, before, line);
      ReplayOne(Key, [], disk, e);
    } else {
      assert log.file == before;
    }
    m := Load(log);
  }

  /** A line that was wholly written counts as appended, though no one was told. */
  ghost method Settle(log: Log, e: Entry, before: Bytes, line: Bytes)
    requires Good(log.codec) && Holds(log.codec, log.snapshot, log.snapshotLines, log.snapshotEntries)
    requires Holds(log.codec, before, log.logLines, log.logEntries)
    requires IsLine(log.codec, line, e) && log.file == before + line[..|line|]
    modifies log`logLines, log`logEntries
    ensures log.Valid() && OnDisk(log) == old(OnDisk(log)) + [e]
  {
    HoldsAppend(log.codec, before, log.logLines, log.logEntries, line, e);
    assert line[..|line|] == line;
    log.logLines, log.logEntries := log.logLines + [line], log.logEntries + [e];
  }

  method Step(m0: Manifest, op: Op) returns (m: Manifest, ok: bool, torn: bool, ghost did: Op)
    requires m0.Valid()
    modifies m0, m0.log
    ensures m.log == m0.log && (m == m0 || fresh(m)) && CameTo(op, did)
    ensures ok ==> m.Valid() && m.View() == After(old(m0.View()), did)
    ensures !ok ==> torn || TooLong(m.log)
    ensures ok && (op.Reopen? || op.Die?) ==> fresh(m)
    ensures torn ==> !ok && op.Die? && PartWritten(m0.log.codec, old(m0.log.file), m0.log.file, op.entry)
  {
    m, ok, torn, did := m0, true, false, op;
    match op {
      case Append(e, fault) =>
        var _ := m.Append(e, fault);
      case Remove(id, now, fault) =>
        var _ := m.Remove(id, now, fault);
      case Compact(fault) =>
        var _ := m.Compact(fault);
      case Reopen =>
        var again := Load(m.log);
        if again == null {
          return m, false, false, op;
        }
        m := again;
      case Die(e) =>
        var again;
        again, torn, did := DieAndLoad(m.log, e);
        if again == null {
          return m, false, torn, did;
        }
        m := again;
    }
  }

  /** A run as it came out: `dids` says of each operation what it came to. */
  ghost predicate RanTo(ops: seq<Op>, dids: seq<Op>, before: seq<Entry>, view: seq<Entry>) {
    |dids| <= |ops| && (forall i :: 0 <= i < |dids| ==> CameTo(ops[i], dids[i])) && view == AfterAll(before, dids)
  }

  lemma RanNext(ops: seq<Op>, dids: seq<Op>, before: seq<Entry>, view: seq<Entry>, did: Op)
    requires RanTo(ops, dids, before, view) && |dids| < |ops| && CameTo(ops[|dids|], did)
    ensures RanTo(ops, dids + [did], before, After(view, did))
  {
    assert (dids + [did])[..|dids|] == dids;
  }

  /**
   * Runs any operations, each compaction failing or crashing wherever its fault says and a process
   * dying in any append. The catalog ends up as the plain map would, given of each such append whether
   * its line was written; unless an entry was written that no line can hold, or a process died with
   * part of a line written, where `LoadAfterDying` and `DieThenWriteOn` go on.
   */
  method Run(m0: Manifest, ops: seq<Op>) returns (m: Manifest, ok: bool, torn: bool, ghost dids: seq<Op>)
    requires m0.Valid()
    modifies m0, m0.log
    ensures m.log == m0.log
    ensures ok ==> m.Valid() && |dids| == |ops| && RanTo(ops, dids, old(m0.View()), m.View())
    ensures !ok ==> torn || TooLong(m.log)
    ensures torn ==> !ok && |dids| < |ops| && ops[|dids|].Die?
    ensures torn ==> exists before :: PartWritten(m0.log.codec, before, m0.log.file, ops[|dids|].entry)
  {
    m, dids, torn := m0, [], false;
    ghost var view0 := m0.View();
    for i := 0 to |ops|
      invariant m.Valid() && m.log == m0.log
      invariant m == m0 || fresh(m)
      invariant |dids| == i && RanTo(ops, dids, view0, m.View()) && !torn
    {
      ghost var view, did := m.View(), ops[i];
      m, ok, torn, did := Step(m, ops[i]);
      RanNext(ops, dids, view0, view, did);
      if !ok {
        return;
      }
      dids := dids + [did];
    }
    ok := true;
  }

  ghost predicate Gone(out: seq<Entry>, id: Id) {
    Find(Key, out, id).Some? && Find(Key, out, id).value.deleted
  }

  lemma RemovedFind(out: seq<Entry>, id: Id, now: int, k: Id)
    ensures Find(Key, Removed(out, id, now), k) ==
      if k == id && Find(Key, out, k).Some? && !Find(Key, out, k).value.deleted
      then Some(Tombstone(Find(Key, out, k).value, now)) else Find(Key, out, k)
  {
    var found := Find(Key, out, id);
    if found.Some? && !found.value.deleted {
      UpsertFind(Key, out, Tombstone(found.value, now), k);
    }
  }

  /** A removed record never comes back unless it is appended again. */
  lemma {:induction false} StaysGone(out: seq<Entry>, ops: seq<Op>, id: Id)
    requires Gone(out, id)
    requires forall op <- ops :: op.Append? ==> op.entry.id != id
    ensures Gone(AfterAll(out, ops), id)
    decreases |ops|
  {
    if ops != [] {
      var before, op := ops[..|ops| - 1], ops[|ops| - 1];
      StaysGone(out, before, id);
      match op {
        case Append(e, _) => UpsertFind(Key, AfterAll(out, before), e, id);
        case Remove(other, now, _) => RemovedFind(AfterAll(out, before), other, now, id);
        case _ =>
      }
    }
  }

  /** Removing a record the catalog holds is what makes it gone, and touches no other record. */
  lemma RemoveIsGone(out: seq<Entry>, id: Id, now: int, k: Id)
    requires Find(Key, out, id).Some?
    ensures Gone(Removed(out, id, now), id)
    ensures k != id ==> Find(Key, Removed(out, id, now), k) == Find(Key, out, k)
  {
    RemovedFind(out, id, now, id);
    RemovedFind(out, id, now, k);
  }

  /** The bytes one operation appends to the log, given what the catalog holds before it. */
  function AppendedBy(c: Codec, out: seq<Entry>, op: Op): nat {
    match op
    case Append(e, _) => LineSize(c, e)
    case Remove(id, now, _) => RemovalSize(c, out, id, now)
    case _ => 0
  }

  function AppendedByAll(c: Codec, out: seq<Entry>, ops: seq<Op>): nat
    decreases |ops|
  {
    if ops == [] then 0
    else
      var front := ops[..|ops| - 1];
      AppendedByAll(c, out, front) + AppendedBy(c, AfterAll(out, front), ops[|ops| - 1])
  }

  /** One append or removal, with the compaction it may trigger. */
  method Write(m: Manifest, op: Op)
    requires m.Valid() && (op.Append? || op.Remove?)
    modifies m, m.log
    ensures m.Valid() && m.View() == After(old(m.View()), op)
    ensures m.log.appended == old(m.log.appended) + AppendedBy(m.log.codec, old(m.View()), op)
    ensures m.log.atOpen == old(m.log.atOpen)
    ensures old(m.log.Covered() && m.log.Amortised()) ==> m.log.Covered() && m.log.Amortised()
    ensures old(m.log.Honest()) ==> m.log.Honest()
    ensures old(m.log.wasted) <= m.log.wasted
  {
    match op {
      case Append(e, fault) => var _ := m.Append(e, fault);
      case Remove(id, now, fault) => var _ := m.Remove(id, now, fault);
    }
  }

  /**
   * The write bound: over any run of appends and removals, each compacting when the log has outgrown
   * its snapshot and each compaction succeeding or failing anywhere, what the log counts as written
   * stays within six times what was appended plus five times the log found at open. What is really
   * written is that and what each failed compaction had written, so it is the same exactly when every
   * one that failed did so before its first byte.
   */
  method WriteAll(m: Manifest, ops: seq<Op>)
    requires m.Valid() && forall op <- ops :: op.Append? || op.Remove?
    requires m.log.Covered() && m.log.written == m.log.appended == 0 && m.log.logBytes == m.log.atOpen
    requires m.log.spent == 0 && m.log.wasted == []
    modifies m, m.log
    ensures m.Valid() && m.View() == AfterAll(old(m.View()), ops)
    ensures m.log.written <= 6 * AppendedByAll(m.log.codec, old(m.View()), ops) + 5 * old(m.log.logBytes)
    ensures m.log.spent == m.log.written + Total(m.log.wasted)
    ensures m.log.spent == m.log.written <==> forall n <- m.log.wasted :: n == 0
  {
    ghost var view := m.View();
    for i := 0 to |ops|
      invariant m.Valid() && m.log.Covered() && m.log.Amortised() && m.log.atOpen == old(m.log.atOpen)
      invariant m.log.Honest()
      invariant m.View() == AfterAll(view, ops[..i])
      invariant m.log.appended == AppendedByAll(m.log.codec, view, ops[..i])
    {
      assert ops[..i + 1][..i] == ops[..i];
      assert ops[i] in ops;
      Write(m, ops[i]);
    }
    assert ops[..|ops|] == ops;
    TotalZero(m.log.wasted);
  }

  /** A compaction of a catalog this large that fails with all of it written. */
  predicate FailsWritten(fault: Fault, size: nat) { fault != NoFault && Wasted(fault, size) == size }

  function Times(n: nat, of: nat): nat { if n == 0 then 0 else Times(n - 1, of) + of }

  lemma {:induction false} TimesIs(n: nat, of: nat)
    ensures Times(n, of) == n * of
  {
    if n > 0 {
      TimesIs(n - 1, of);
    }
  }

  /** What the counters and the disk have seen after this many appends of one line, each with a failed compaction. */
  ghost predicate Failed(log: Log, n: nat, line: nat, whole: nat)
    reads log
  {
    && log.Honest() && log.written == log.appended == Times(n, line) && Total(log.wasted) == Times(n, whole)
  }

  method FailOnce(m: Manifest, e: Entry, fault: Fault, ghost n: nat, ghost line: nat, ghost whole: nat)
    requires m.Valid() && m.log.DueForCompaction() && Find(Key, m.View(), e.id) == Some(e)
    requires line == LineSize(m.log.codec, e) && whole == Sum(Size(m.log.codec), m.View())
    requires Failed(m.log, n, line, whole) && FailsWritten(fault, whole)
    modifies m, m.log
    ensures m.Valid() && m.log.DueForCompaction() && m.View() == old(m.View()) && m.log.atOpen == old(m.log.atOpen)
    ensures Failed(m.log, n + 1, line, whole)
  {
    ghost var wasted := m.log.wasted;
    UpsertHeld(Key, m.View(), e);
    var ok := m.Append(e, fault);
    assert m.log.wasted[..|wasted|] == wasted;
  }

  /**
   * What is really written has no such bound: while every compaction fails with its snapshot written,
   * each append of a record already held writes the whole catalog again, and the counters still say
   * only what was appended.
   */
  method FailEachTime(m: Manifest, e: Entry, faults: seq<Fault>, ghost line: nat, ghost whole: nat)
    requires m.Valid() && m.log.DueForCompaction() && Find(Key, m.View(), e.id) == Some(e)
    requires line == LineSize(m.log.codec, e) && whole == Sum(Size(m.log.codec), m.View())
    requires m.log.written == m.log.appended == m.log.spent == 0 && m.log.wasted == []
    requires forall f <- faults :: FailsWritten(f, whole)
    modifies m, m.log
    ensures m.Valid() && m.View() == old(m.View()) && m.log.atOpen == old(m.log.atOpen)
    ensures m.log.written == m.log.appended == Times(|faults|, line)
    ensures m.log.spent == Times(|faults|, line) + Times(|faults|, whole)
  {
    ghost var view := m.View();
    for i := 0 to |faults|
      invariant m.Valid() && m.log.DueForCompaction() && m.View() == view && m.log.atOpen == old(m.log.atOpen)
      invariant Failed(m.log, i, line, whole)
    {
      assert faults[i] in faults;
      FailOnce(m, e, faults[i], i, line, whole);
    }
  }

  /**
   * So for any multiple smaller than the catalog is to one line, enough such appends write more than
   * that multiple of all that was appended and found at open.
   */
  lemma FailuresPassAnyMultiple(n: nat, line: nat, whole: nat, atOpen: nat, times: nat)
    requires whole > times * line && n > times * atOpen
    ensures Times(n, line) + Times(n, whole) > times * (Times(n, line) + atOpen)
  {
    TimesIs(n, line);
    TimesIs(n, whole);
    Outweighs(n, times * line, whole, Times(n, line), times * atOpen);
    Swapped(n, times, line);
    Shared(times, Times(n, line), atOpen);
  }

  lemma Outweighs(n: nat, least: nat, whole: nat, appended: nat, found: nat)
    requires whole > least && n > found
    ensures appended + n * whole > n * least + found
  {
    Whole(n, whole, least);
  }

  lemma Whole(n: nat, whole: nat, least: nat)
    requires whole > least
    ensures n * whole >= n * least + n
  {
    Scaled(n, whole, least + 1);
    Shared(n, least, 1);
  }

  lemma Shared(times: nat, x: nat, y: nat)
    ensures times * (x + y) == times * x + times * y
  {
  }

  lemma Scaled(n: nat, x: nat, y: nat)
    requires x >= y
    ensures n * x >= n * y
  {
  }

  lemma Swapped(n: nat, times: nat, line: nat)
    ensures n * (times * line) == times * (n * line)
  {
  }
}
