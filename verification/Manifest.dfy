/**
 * The catalog, where each record id finds its object: an append-only log, a snapshot it is folded into,
 * and the in-memory view both replay to.
 */
module Manifest {
  import opened Bytes
  import opened Records
  import opened KeyedLog
  import opened ManifestLines

  const MIN_COMPACT_BYTES: nat := 65536

  /**
   * Where a compaction stops: at a failing file operation, or because the process died there. Before
   * the rename it may have got any number of bytes into the pending file.
   */
  datatype Fault = NoFault | BeforeRename(wrote: nat) | BeforeTruncate | AfterTruncate

  /** The bytes a compaction that stops there has written for nothing, of a snapshot this large. */
  function Wasted(fault: Fault, size: nat): (n: nat)
    ensures n <= size
  {
    match fault
    case NoFault => 0
    case BeforeRename(wrote) => if wrote < size then wrote else size
    case _ => size
  }

  function Total(sizes: seq<nat>): nat {
    if sizes == [] then 0 else Total(sizes[..|sizes| - 1]) + sizes[|sizes| - 1]
  }

  lemma {:induction false} TotalZero(sizes: seq<nat>)
    ensures Total(sizes) == 0 <==> forall n <- sizes :: n == 0
    decreases |sizes|
  {
    if sizes != [] {
      var front, last := sizes[..|sizes| - 1], sizes[|sizes| - 1];
      TotalZero(front);
      assert last in sizes && forall n <- front :: n in sizes;
      assert sizes == front + [last];
    }
  }

  /** The entries on disk, in the order a replay meets them. */
  ghost function OnDisk(log: Log): seq<Entry>
    reads log
  {
    log.snapshotEntries + log.logEntries
  }

  class Log {
    const codec: Codec
    // The two files. A snapshot that was never written reads the same as an empty one.
    var snapshot: Bytes
    var file: Bytes
    var logBytes: nat
    var snapshotBytes: nat
    var written: nat
    var compactions: nat

    ghost var snapshotLines: seq<Bytes>
    ghost var snapshotEntries: seq<Entry>
    ghost var logLines: seq<Bytes>
    ghost var logEntries: seq<Entry>
    // Bytes appended since the log was atOpen, and the size of the log file at that moment.
    ghost var appended: nat
    ghost var atOpen: nat
    // Bytes really written since then, and what each write or compaction that failed had written.
    ghost var spent: nat
    ghost var wasted: seq<nat>

    ghost predicate Valid()
      reads this
    {
      && Good(codec)
      && Holds(codec, snapshot, snapshotLines, snapshotEntries)
      && Holds(codec, file, logLines, logEntries)
    }

    /** The counters agree with the files they size. */
    ghost predicate Accounted()
      reads this
    {
      logBytes == |file| && snapshotBytes == |snapshot|
    }

    /** The counters leave room for one line per record, whatever a failed compaction did to the files. */
    ghost predicate Covered()
      reads this
    {
      Sum(Size(codec), KeyedLog.Replay(Key, [], OnDisk(this))) <= snapshotBytes + logBytes
    }

    /** The log is under the floor, or no more than a quarter of the snapshot. */
    ghost predicate Trim()
      reads this
    {
      logBytes < MIN_COMPACT_BYTES || 4 * logBytes <= snapshotBytes
    }

    /** What the compaction ratio buys: every byte of the log pays for at most five bytes of snapshot. */
    ghost predicate Amortised()
      reads this
    {
      written + 5 * logBytes <= 6 * appended + 5 * atOpen
    }

    /** What is written and not counted is what failures had written. */
    ghost predicate Honest()
      reads this
    {
      spent == written + Total(wasted)
    }

    /** Opens the catalog over whatever the two files hold. */
    constructor Open(codec: Codec, snapshot: Bytes, file: Bytes,
                     ghost snapshotLines: seq<Bytes>, ghost snapshotEntries: seq<Entry>,
                     ghost logLines: seq<Bytes>, ghost logEntries: seq<Entry>)
      requires Good(codec)
      requires Holds(codec, snapshot, snapshotLines, snapshotEntries)
      requires Holds(codec, file, logLines, logEntries)
      ensures Valid() && Accounted() && Covered() && Amortised() && Honest()
      ensures this.codec == codec && this.snapshot == snapshot && this.file == file
      ensures this.snapshotEntries == snapshotEntries && this.logEntries == logEntries
      ensures written == 0 && appended == 0 && spent == 0 && wasted == [] && atOpen == |file|
    {
      this.codec := codec;
      this.snapshot, this.file := snapshot, file;
      logBytes, snapshotBytes := |file|, |snapshot|;
      written, compactions := 0, 0;
      this.snapshotLines, this.snapshotEntries := snapshotLines, snapshotEntries;
      this.logLines, this.logEntries := logLines, logEntries;
      appended, atOpen := 0, |file|;
      spent, wasted := 0, [];
      FoldedSize(codec, snapshot, snapshotLines, snapshotEntries, file, logLines, logEntries);
    }

    /** Writes one sealed line after whatever the log file holds. */
    method WriteLine(e: Entry) returns (line: Bytes)
      requires Good(codec)
      modifies this`file, this`logBytes, this`written, this`appended, this`spent
      ensures IsLine(codec, line, e) && |line| == LineSize(codec, e) && file == old(file) + line
      ensures logBytes == old(logBytes) + |line| && written == old(written) + |line|
      ensures appended == old(appended) + |line| && spent == old(spent) + |line|
    {
      line := SealLine(codec, e);
      file := file + line;
      logBytes := logBytes + |line|;
      written := written + |line|;
      appended, spent := appended + |line|, spent + |line|;
    }

    /** The same for several entries. */
    method WriteLines(es: seq<Entry>) returns (ghost lines: seq<Bytes>)
      requires Good(codec)
      modifies this`file, this`logBytes, this`written, this`appended, this`spent
      ensures Holds(codec, Concat(lines), lines, es) && file == old(file) + Concat(lines)
    {
      lines := [];
      ghost var base := file;
      for i := 0 to |es|
        invariant Holds(codec, Concat(lines), lines, es[..i]) && file == base + Concat(lines)
      {
        ghost var before := file;
        var line := WriteLine(es[i]);
        HoldsMore(codec, base, before, lines, es, i, line);
        lines := lines + [line];
      }
      assert es[..|es|] == es;
    }

    method Append(e: Entry)
      requires Valid()
      modifies this
      ensures Valid()
      ensures logEntries == old(logEntries) + [e]
      ensures snapshot == old(snapshot) && snapshotEntries == old(snapshotEntries)
      ensures snapshotBytes == old(snapshotBytes) && compactions == old(compactions) && atOpen == old(atOpen)
      ensures wasted == old(wasted)
      ensures |file| == old(|file|) + LineSize(codec, e)
      ensures logBytes == old(logBytes) + LineSize(codec, e)
      ensures written == old(written) + LineSize(codec, e)
      ensures appended == old(appended) + LineSize(codec, e) && spent == old(spent) + LineSize(codec, e)
    {
      ghost var before := file;
      var line := WriteLine(e);
      HoldsAppend(codec, before, logLines, logEntries, line, e);
      logLines, logEntries := logLines + [line], logEntries + [e];
    }

    /**
     * The write or the sync fails, or the process dies in it, with `k` bytes of the line written. The
     * file then reads as it did, or with the entry too, or not at all.
     */
    method FailAppending(e: Entry) returns (k: nat, line: Bytes)
      requires Valid()
      modifies this`file, this`spent, this`wasted
      ensures IsLine(codec, line, e) && k <= |line| && file == old(file) + line[..k]
      ensures Authentic(codec.sealer) && Fits(codec, e) && (forall x <- logEntries :: Fits(codec, x)) ==>
        ReadFile(codec, file)
        == if k == 0 then Some(logEntries) else if k >= |line| - 1 then Some(logEntries + [e]) else None
      ensures spent == old(spent) + k && wasted == old(wasted) + [k]
    {
      var whole := SealLine(codec, e);
      line, k := whole, *;
      if k > |whole| {
        k := |whole|;
      }
      if Authentic(codec.sealer) && Fits(codec, e) && forall x <- logEntries :: Fits(codec, x) {
        AppendCut(codec, logLines, logEntries, whole, e, k);
      }
      file := file + whole[..k];
      spent, wasted := spent + k, wasted + [k];
    }

    predicate DueForCompaction()
      reads this
    {
      logBytes >= MIN_COMPACT_BYTES && 4 * logBytes > snapshotBytes
    }

    /** Rebuilds the view from disk, whatever is there: first what was folded, then what has been appended since. */
    method Replay() returns (ok: bool, entries: map<Id, Entry>, order: seq<Id>)
      ensures Indexed(entries, order)
      ensures ok <==> ReadFile(codec, snapshot).Some? && ReadFile(codec, file).Some?
      ensures ok ==>
        Listing(entries, order) == KeyedLog.Replay(Key, [], ReadFile(codec, snapshot).value + ReadFile(codec, file).value)
      ensures Valid() ==> (ok <==> forall e <- OnDisk(this) :: Fits(codec, e))
      ensures Valid() && ok ==> Listing(entries, order) == KeyedLog.Replay(Key, [], OnDisk(this))
    {
      ghost var valid := Valid();
      if valid {
        WholeFileReads(codec, snapshot, snapshotLines, snapshotEntries);
        WholeFileReads(codec, file, logLines, logEntries);
      }
      assert Indexed(map[], []) && Listing(map[], []) == [];
      ok, entries, order := ReadEntries(codec, snapshot, map[], []);
      if !ok {
        return;
      }
      ok, entries, order := ReadEntries(codec, file, entries, order);
      if ok {
        ReplayAppend(Key, [], ReadFile(codec, snapshot).value, ReadFile(codec, file).value);
      }
    }

    /** Writes one line per entry to the pending file, which nothing reads yet. */
    method WritePending(entries: seq<Entry>) returns (pending: Bytes, ghost lines: seq<Bytes>)
      requires Good(codec)
      ensures Holds(codec, pending, lines, entries)
      ensures |pending| == Sum(Size(codec), entries)
    {
      pending, lines := [], [];
      for i := 0 to |entries|
        invariant Holds(codec, pending, lines, entries[..i])
      {
        var line := SealLine(codec, entries[i]);
        HoldsAppend(codec, pending, lines, entries[..i], line, entries[i]);
        assert entries[..i + 1] == entries[..i] + [entries[i]];
        pending, lines := pending + line, lines + [line];
      }
      assert entries[..|entries|] == entries;
      HoldsSize(codec, pending, lines, entries);
    }

    method Rename(pending: Bytes, ghost lines: seq<Bytes>, ghost entries: seq<Entry>)
      requires Holds(codec, pending, lines, entries)
      modifies this`snapshot, this`snapshotLines, this`snapshotEntries
      ensures Holds(codec, snapshot, snapshotLines, snapshotEntries)
      ensures snapshot == pending && snapshotEntries == entries
    {
      snapshot, snapshotLines, snapshotEntries := pending, lines, entries;
    }

    method Truncate()
      modifies this`file, this`logLines, this`logEntries
      ensures Holds(codec, file, logLines, logEntries) && file == [] && logEntries == []
    {
      file, logLines, logEntries := [], [], [];
    }

    /**
     * Writes the given entries as a fresh snapshot, installs it, then empties the log. Whatever state
     * the files were in, they are in order once it succeeds.
     */
    method Compact(entries: seq<Entry>, fault: Fault) returns (ok: bool)
      requires Good(codec)
      modifies this
      ensures old(Valid()) || ok ==> Valid()
      ensures ok <==> fault == NoFault
      ensures appended == old(appended) && atOpen == old(atOpen)
      ensures snapshotEntries == if fault.BeforeRename? then old(snapshotEntries) else entries
      ensures logEntries == if fault.BeforeRename? || fault == BeforeTruncate then old(logEntries) else []
      ensures ok ==> Accounted() && compactions == old(compactions) + 1
      ensures ok ==> |file| == 0 && |snapshot| == Sum(Size(codec), entries)
      ensures ok ==> written == old(written) + |snapshot| && spent == old(spent) + |snapshot| && wasted == old(wasted)
      ensures !ok ==> logBytes == old(logBytes) && snapshotBytes == old(snapshotBytes)
      ensures !ok ==> written == old(written) && compactions == old(compactions)
      ensures !ok ==> spent == old(spent) + Wasted(fault, Sum(Size(codec), entries))
      ensures !ok ==> wasted == old(wasted) + [Wasted(fault, Sum(Size(codec), entries))]
    {
      ghost var pendingLines;
      var pending;
      pending, pendingLines := WritePending(entries);
      Install(pending, pendingLines, entries, fault);
      ok := fault == NoFault;
      if ok {
        CountCompaction(|pending|);
      } else {
        ghost var waste := Wasted(fault, |pending|);
        spent, wasted := spent + waste, wasted + [waste];
      }
    }

    method CountCompaction(size: nat)
      modifies this`snapshotBytes, this`logBytes, this`written, this`compactions, this`spent
      ensures snapshotBytes == size && logBytes == 0
      ensures written == old(written) + size && compactions == old(compactions) + 1
      ensures spent == old(spent) + size
    {
      snapshotBytes, logBytes := size, 0;
      written := written + size;
      compactions := compactions + 1;
      spent := spent + size;
    }

    /** Renames the pending file into place and empties the log, stopping where the fault says. */
    method Install(pending: Bytes, ghost lines: seq<Bytes>, ghost entries: seq<Entry>, fault: Fault)
      requires Good(codec) && Holds(codec, pending, lines, entries)
      modifies this`snapshot, this`snapshotLines, this`snapshotEntries, this`file, this`logLines, this`logEntries
      ensures old(Valid()) || fault == NoFault ==> Valid()
      ensures snapshotEntries == if fault.BeforeRename? then old(snapshotEntries) else entries
      ensures logEntries == if fault.BeforeRename? || fault == BeforeTruncate then old(logEntries) else []
      ensures fault == NoFault ==> snapshot == pending && file == []
    {
      if fault.BeforeRename? {
        return;
      }
      Rename(pending, lines, entries);
      if fault == BeforeTruncate {
        return;
      }
      Truncate();
    }
  }

  /** The abstract catalog: what each operation does to the listing, however it is stored. */
  function Tombstone(e: Entry, now: int): Entry { e.(deleted := true, writtenAt := now) }

  function Removed(out: seq<Entry>, id: Id, now: int): seq<Entry> {
    var found := Find(Key, out, id);
    if found.None? || found.value.deleted then out
    else Upsert(Key, out, Tombstone(found.value, now))
  }

  /** What a removal appends: a marker for a record the catalog holds, nothing otherwise. */
  function RemovalSize(c: Codec, out: seq<Entry>, id: Id, now: int): nat {
    var found := Find(Key, out, id);
    if found.None? || found.value.deleted then 0 else LineSize(c, Tombstone(found.value, now))
  }

  function Live(out: seq<Entry>): (live: seq<Entry>) {
    if out == [] then []
    else
      var rest := Live(out[1..]);
      if out[0].deleted then rest else [out[0]] + rest
  }

  /** A removal always shows: the record was not deleted and now is. */
  lemma TombstoneShows(view: seq<Entry>, e: Entry, now: int)
    requires Find(Key, view, e.id) == Some(e) && !e.deleted
    ensures Upsert(Key, view, Tombstone(e, now)) != view
  {
    UpsertFind(Key, view, Tombstone(e, now), e.id);
  }

  class Manifest {
    const log: Log
    var entries: map<Id, Entry>
    var order: seq<Id>

    ghost predicate Valid()
      reads this, log
    {
      && log.Valid()
      && Indexed(entries, order)
      && Listing(entries, order) == KeyedLog.Replay(Key, [], OnDisk(log))
    }

    /** Every record ever catalogued, with its current entry, in the order it was first written. */
    ghost function View(): seq<Entry>
      reads this, log
      requires Valid()
    {
      Listing(entries, order)
    }

    constructor (log: Log, entries: map<Id, Entry>, order: seq<Id>)
      requires log.Valid() && Indexed(entries, order)
      requires Listing(entries, order) == KeyedLog.Replay(Key, [], OnDisk(log))
      ensures Valid() && this.log == log && this.entries == entries && this.order == order
    {
      this.log, this.entries, this.order := log, entries, order;
    }

    method Put(e: Entry)
      requires Valid()
      modifies this, log
      ensures Valid() && View() == Upsert(Key, old(View()), e)
      ensures log.logEntries == old(log.logEntries) + [e] && log.snapshotEntries == old(log.snapshotEntries)
      ensures log.compactions == old(log.compactions)
      ensures log.logBytes == old(log.logBytes) + LineSize(log.codec, e)
      ensures log.snapshotBytes == old(log.snapshotBytes)
      ensures log.written == old(log.written) + LineSize(log.codec, e)
      ensures log.appended == old(log.appended) + LineSize(log.codec, e) && log.atOpen == old(log.atOpen)
      ensures log.spent == old(log.spent) + LineSize(log.codec, e) && log.wasted == old(log.wasted)
    {
      ghost var disk := OnDisk(log);
      log.Append(e);
      assert OnDisk(log) == disk + [e] by {
        assert log.snapshotEntries + log.logEntries == disk + [e];
      }
      ReplayOne(Key, [], disk, e);
      Remember(e);
    }

    method Remember(e: Entry)
      requires Indexed(entries, order)
      modifies this
      ensures Indexed(entries, order)
      ensures Listing(entries, order) == Upsert(Key, old(Listing(entries, order)), e)
    {
      PutListing(entries, order, e);
      if e.id !in entries {
        order := order + [e.id];
      }
      entries := entries[e.id := e];
    }

    /** What memory does for several entries. */
    method RememberAll(es: seq<Entry>)
      requires Indexed(entries, order)
      modifies this
      ensures Indexed(entries, order)
      ensures Listing(entries, order) == KeyedLog.Replay(Key, old(Listing(entries, order)), es)
    {
      ghost var view := Listing(entries, order);
      for i := 0 to |es|
        invariant Indexed(entries, order) && Listing(entries, order) == KeyedLog.Replay(Key, view, es[..i])
      {
        ReplayNext(Key, view, es, i);
        Remember(es[i]);
      }
      assert es[..|es|] == es;
    }

    /**
     * Folds the log into a snapshot of one line per record, removal markers included. What it writes is
     * what memory holds, so once it succeeds disk and memory agree, whatever a failed append had left.
     */
    method Compact(fault: Fault) returns (ok: bool)
      requires Good(log.codec) && Indexed(entries, order)
      modifies log
      ensures old(Valid()) || ok ==> Valid() && View() == old(Listing(entries, order))
      ensures ok <==> fault == NoFault
      ensures log.appended == old(log.appended) && log.atOpen == old(log.atOpen)
      ensures ok ==> log.Accounted() && |log.file| == 0
      ensures ok ==> log.logEntries == [] && log.snapshotEntries == old(Listing(entries, order))
      ensures log.compactions == old(log.compactions) + if ok then 1 else 0
      ensures ok ==> log.logBytes == 0 && log.snapshotBytes == Sum(Size(log.codec), old(Listing(entries, order)))
      ensures ok ==> log.written == old(log.written) + log.snapshotBytes
      ensures ok ==> log.spent == old(log.spent) + log.snapshotBytes && log.wasted == old(log.wasted)
      ensures !ok ==> log.logBytes == old(log.logBytes) && log.snapshotBytes == old(log.snapshotBytes)
      ensures !ok ==> log.written == old(log.written)
      ensures !ok ==> log.spent == old(log.spent) + Wasted(fault, Sum(Size(log.codec), old(Listing(entries, order))))
      ensures !ok ==> log.wasted == old(log.wasted) + [Wasted(fault, Sum(Size(log.codec), old(Listing(entries, order))))]
    {
      var listed := Listed();
      ghost var snapshot, tail, valid := log.snapshotEntries, log.logEntries, Valid();
      ok := log.Compact(listed, fault);
      if valid {
        Compacted(snapshot, tail, listed, log.snapshotEntries, log.logEntries);
      } else if ok {
        ListingDistinct(entries, order);
        ReplayDistinctIsIdentity(Key, [], listed);
        assert [] + listed == listed && OnDisk(log) == listed;
      }
    }

    /** With this line appended the log would be trim no longer. */
    ghost predicate Outgrown(e: Entry)
      reads this, log
    {
      var size := log.logBytes + LineSize(log.codec, e);
      size >= MIN_COMPACT_BYTES && 4 * size > log.snapshotBytes
    }

    method Listed() returns (listed: seq<Entry>)
      requires Indexed(entries, order)
      ensures listed == Listing(entries, order)
    {
      listed := [];
      for i := 0 to |order|
        invariant listed == Listing(entries, order)[..i]
      {
        listed := listed + [entries[order[i]]];
      }
    }

    /**
     * Records where a record landed, and compacts exactly when that makes the log as large as the floor
     * and more than a quarter of the snapshot; so each time it succeeds the log is trim.
     */
    method Append(e: Entry, fault: Fault) returns (ok: bool)
      requires Valid()
      modifies this, log
      ensures Valid() && View() == Upsert(Key, old(View()), e)
      ensures ok <==> fault == NoFault || !old(Outgrown(e))
      ensures ok ==> log.Trim()
      ensures log.compactions == old(log.compactions) + if ok && old(Outgrown(e)) then 1 else 0
      ensures ok && old(Outgrown(e)) ==> log.logEntries == [] && log.snapshotEntries == View()
      ensures !old(Outgrown(e)) ==>
        log.logEntries == old(log.logEntries) + [e] && log.snapshotEntries == old(log.snapshotEntries)
      ensures log.appended == old(log.appended) + LineSize(log.codec, e) && log.atOpen == old(log.atOpen)
      ensures old(log.Covered() && log.Amortised()) ==> log.Covered() && log.Amortised()
      ensures log.wasted == if ok then old(log.wasted)
                            else old(log.wasted) + [Wasted(fault, Sum(Size(log.codec), View()))]
      ensures old(log.Honest()) ==> log.Honest()
      ensures !ok ==> log.logBytes == old(log.logBytes) + LineSize(log.codec, e)
      ensures !ok ==> log.snapshotBytes == old(log.snapshotBytes)
      ensures !ok ==> log.written == old(log.written) + LineSize(log.codec, e)
    {
      UpsertSum(Key, Size(log.codec), View(), e);
      Put(e);
      if !log.DueForCompaction() {
        return true;
      }
      ghost var wasted := log.wasted;
      ok := Compact(fault);
      if !ok {
        assert log.wasted[..|wasted|] == wasted;
      }
    }

    /** Appends a removal marker; a record the catalog does not hold is an error and changes nothing. */
    method Remove(id: Id, now: int, fault: Fault) returns (ok: bool)
      requires Valid()
      modifies this, log
      ensures Valid() && View() == Removed(old(View()), id, now)
      ensures ok ==> Find(Key, old(View()), id).Some? && !Find(Key, old(View()), id).value.deleted
      ensures ok ==> log.Trim()
      ensures fault == NoFault ==> (ok <==> View() != old(View()))
      ensures log.appended == old(log.appended) + RemovalSize(log.codec, old(View()), id, now)
      ensures log.atOpen == old(log.atOpen)
      ensures old(log.Covered() && log.Amortised()) ==> log.Covered() && log.Amortised()
      ensures log.wasted == if ok || View() == old(View()) then old(log.wasted)
                            else old(log.wasted) + [Wasted(fault, Sum(Size(log.codec), View()))]
      ensures old(log.Honest()) ==> log.Honest()
    {
      var found := Lookup(id);
      if found.None? {
        return false;
      }
      ghost var before := View();
      ok := Append(Tombstone(found.value, now), fault);
      TombstoneShows(before, found.value, now);
    }

    method Lookup(id: Id) returns (r: Option<Entry>)
      requires Valid()
      ensures r == match Find(Key, View(), id)
        case None => None
        case Some(e) => if e.deleted then None else Some(e)
    {
      ListingFind(entries, order, id);
      if id !in entries || entries[id].deleted {
        return None;
      }
      r := Some(entries[id]);
    }

    method Entries() returns (out: seq<Entry>)
      requires Valid()
      ensures out == Live(View())
    {
      out := [];
      ghost var view := View();
      for i := 0 to |order|
        invariant out == Live(view[..i]) && view == View()
      {
        LivePrefix(view, i);
        if !entries[order[i]].deleted {
          out := out + [entries[order[i]]];
        }
      }
      assert view[..|order|] == view;
    }
  }

  lemma {:induction false} LiveAppend(out: seq<Entry>, e: Entry)
    ensures Live(out + [e]) == if e.deleted then Live(out) else Live(out) + [e]
  {
    if out == [] {
      assert [e][1..] == [];
    } else {
      LiveAppend(out[1..], e);
      assert (out + [e])[1..] == out[1..] + [e];
    }
  }

  lemma LivePrefix(view: seq<Entry>, i: nat)
    requires i < |view|
    ensures Live(view[..i + 1]) == if view[i].deleted then Live(view[..i]) else Live(view[..i]) + [view[i]]
  {
    LiveAppend(view[..i], view[i]);
    assert view[..i + 1] == view[..i] + [view[i]];
  }

  /** Any of the three states a compaction can leave on disk replays to the same listing. */
  lemma FoldedDisk(snapshot: seq<Entry>, log: seq<Entry>)
    ensures var view := Replay(Key, [], snapshot + log);
      Replay(Key, [], view + log) == view && Replay(Key, [], view) == view
  {
    var base := Replay(Key, [], snapshot);
    var view := Replay(Key, [], snapshot + log);
    ReplayAppend(Key, [], snapshot, log);
    ReplayDistinct(Key, [], snapshot);
    ReplayDistinct(Key, base, log);
    assert [] + view == view;
    ReplayDistinctIsIdentity(Key, [], view);
    ReplayAppend(Key, [], view, log);
    ReplayTwice(Key, base, log);
  }

  lemma Compacted(snapshot: seq<Entry>, tail: seq<Entry>, listed: seq<Entry>, s: seq<Entry>, t: seq<Entry>)
    requires listed == Replay(Key, [], snapshot + tail)
    requires s == snapshot || s == listed
    requires t == tail || (t == [] && s == listed)
    ensures Replay(Key, [], s + t) == listed
  {
    FoldedDisk(snapshot, tail);
    assert listed + [] == listed;
  }

  /** A fresh snapshot is never larger than the two files it replaces. */
  lemma FoldedSize(c: Codec, snapshot: Bytes, snapshotLines: seq<Bytes>, snapshotEntries: seq<Entry>,
                   file: Bytes, logLines: seq<Bytes>, logEntries: seq<Entry>)
    requires Good(c) && Holds(c, snapshot, snapshotLines, snapshotEntries) && Holds(c, file, logLines, logEntries)
    ensures Sum(Size(c), Replay(Key, [], snapshotEntries + logEntries)) <= |snapshot| + |file|
  {
    var size := Size(c);
    HoldsSize(c, snapshot, snapshotLines, snapshotEntries);
    HoldsSize(c, file, logLines, logEntries);
    ReplaySum(Key, size, [], snapshotEntries + logEntries);
    SumAppend(size, snapshotEntries, logEntries);
  }
}
