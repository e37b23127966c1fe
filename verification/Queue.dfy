/** The flush queue: one table shared by every process over a vault, each statement one atomic step. */
module Queue {
  import opened Bytes
  import opened Records

  /** A sealed record waiting to be written. */
  datatype Blob = Blob(id: Id, kind: Kind, cid: Bytes, payload: Bytes, queuedAt: int)

  /** When a row was taken for a flush, and by whom. */
  datatype Claim = Unclaimed | ClaimedBy(at: int, owner: nat)

  datatype Row = Row(blob: Blob, seqNo: nat, claim: Claim)

  type Table = map<Id, Row>

  ghost predicate Ordered(t: Table) {
    && (forall id <- t :: t[id].blob.id == id)
    && (forall a, b :: a in t && b in t && a != b ==> t[a].seqNo != t[b].seqNo)
  }

  // ---------- the statements ----------

  /** One past the largest position in the table, or the first. */
  ghost predicate NextSeq(t: Table, s: nat) {
    && s > 0
    && (forall id <- t :: t[id].seqNo < s)
    && (s > 1 ==> exists id <- t :: t[id].seqNo == s - 1)
  }

  /** A row already there keeps its place, its kind and its claim; only what it holds is replaced. */
  function Enqueued(t: Table, b: Blob, s: nat): Table {
    if b.id in t
    then t[b.id := t[b.id].(blob := t[b.id].blob.(cid := b.cid, payload := b.payload, queuedAt := b.queuedAt))]
    else t[b.id := Row(b, s, Unclaimed)]
  }

  /** Whether a flush may take the row: it is free, its claim has expired, or no grace is granted at all. */
  predicate Takeable(row: Row, now: int, staleAfter: int) {
    staleAfter <= 0 || row.claim.Unclaimed? || row.claim.at < now - staleAfter
  }

  /** All of these rows are there, and any claim at any time may take them. */
  ghost predicate Free(t: Table, ids: set<Id>) {
    ids <= t.Keys && forall id, now, staleAfter :: id in ids ==> Takeable(t[id], now, staleAfter)
  }

  function TakeableIn(t: Table, now: int, staleAfter: int): set<Id> {
    set id <- t | Takeable(t[id], now, staleAfter)
  }

  /** The rows one claim takes: every takeable row, or the earliest `limit` of them. */
  ghost predicate Picks(t: Table, ids: set<Id>, now: int, staleAfter: int, limit: int) {
    var free := TakeableIn(t, now, staleAfter);
    && ids <= free
    && |ids| == (if limit <= 0 || |free| < limit then |free| else limit)
    && Earlier(t, ids, free - ids)
  }

  ghost predicate Earlier(t: Table, first: set<Id>, rest: set<Id>)
    requires first <= t.Keys && rest <= t.Keys
  {
    forall a, b :: a in first && b in rest ==> t[a].seqNo < t[b].seqNo
  }

  function Claimed(t: Table, ids: set<Id>, now: int, owner: nat): Table {
    map id <- t :: if id in ids then t[id].(claim := ClaimedBy(now, owner)) else t[id]
  }

  function Released(t: Table, ids: set<Id>): Table {
    map id <- t :: if id in ids then t[id].(claim := Unclaimed) else t[id]
  }

  function Dropped(t: Table, ids: set<Id>): Table { t - ids }

  /** What one id's statement does to the table. */
  datatype Statement = Release | Delete

  function Exec(stmt: Statement, t: Table, id: Id): Table {
    if id !in t then t else if stmt.Delete? then t - {id} else t[id := t[id].(claim := Unclaimed)]
  }

  function ExecAll(stmt: Statement, t: Table, ids: set<Id>): Table {
    if stmt.Delete? then Dropped(t, ids) else Released(t, ids)
  }

  function Named(ids: seq<Id>): set<Id> { set id <- ids }

  lemma OneMoreExec(stmt: Statement, t: Table, ids: seq<Id>, i: nat)
    requires i < |ids|
    ensures Exec(stmt, ExecAll(stmt, t, Named(ids[..i])), ids[i]) == ExecAll(stmt, t, Named(ids[..i + 1]))
  {
    assert ids[..i + 1] == ids[..i] + [ids[i]];
  }

  function IdsIn(blobs: seq<Blob>): set<Id> { set b <- blobs :: b.id }

  /** The rows of `ids`, as the table holds them, in arrival order. */
  ghost predicate InArrivalOrder(t: Table, ids: set<Id>, out: seq<Blob>) {
    && IdsIn(out) == ids && ids <= t.Keys
    && (forall b <- out :: b.id in t && t[b.id].blob == b)
    && (forall i, j :: 0 <= i < j < |out| ==> t[out[i].id].seqNo < t[out[j].id].seqNo)
  }

  // ---------- what is waiting ----------

  datatype QueueState = QueueState(records: nat, bytes: nat, oldest: Option<int>, newest: Option<int>)

  ghost predicate Summarises(s: QueueState, t: Table) {
    && s.records == |t|
    && s.bytes == TotalBytes(t, t.Keys)
    && (t == map[] <==> s.oldest.None?) && (t == map[] <==> s.newest.None?)
    && (t != map[] ==>
          && (forall id <- t :: s.oldest.value <= t[id].blob.queuedAt <= s.newest.value)
          && (exists id <- t :: t[id].blob.queuedAt == s.oldest.value)
          && (exists id <- t :: t[id].blob.queuedAt == s.newest.value))
  }

  ghost function TotalBytes(t: Table, ids: set<Id>): nat
    requires ids <= t.Keys
    decreases |ids|
  {
    if ids == {} then 0 else var id :| id in ids; |t[id].blob.payload| + TotalBytes(t, ids - {id})
  }

  /** The total does not depend on the order rows are counted in. */
  lemma {:induction false} TotalWithout(t: Table, ids: set<Id>, id: Id)
    requires ids <= t.Keys && id in ids
    ensures TotalBytes(t, ids) == |t[id].blob.payload| + TotalBytes(t, ids - {id})
    decreases |ids|
  {
    var first :| first in ids && TotalBytes(t, ids) == |t[first].blob.payload| + TotalBytes(t, ids - {first});
    if first != id {
      TotalWithout(t, ids - {first}, id);
      TotalWithout(t, ids - {id}, first);
      assert ids - {first} - {id} == ids - {id} - {first};
    }
  }

  class QueueTable {
    /** No statement fails. */
    const steady: bool
    var rows: Table

    ghost predicate Valid()
      reads this
    {
      Ordered(rows)
    }

    /** The table as a process finds it on disk. */
    constructor At(rows: Table, steady: bool)
      requires Ordered(rows)
      ensures Valid() && this.rows == rows && this.steady == steady
    {
      this.rows, this.steady := rows, steady;
    }

    /** Adds a record to the end of the queue, or replaces what an existing row holds. */
    method Enqueue(b: Blob) returns (ghost s: nat)
      requires Valid()
      modifies this
      ensures Valid() && NextSeq(old(rows), s) && rows == Enqueued(old(rows), b, s)
    {
      var next := 1;
      var left := rows.Keys;
      while left != {}
        invariant left <= rows.Keys && next > 0
        invariant forall id <- rows :: id in left || rows[id].seqNo < next
        invariant next > 1 ==> exists id <- rows :: rows[id].seqNo == next - 1
        decreases left
      {
        var id :| id in left;
        left := left - {id};
        if rows[id].seqNo >= next {
          next := rows[id].seqNo + 1;
        }
      }
      s := next;
      rows := Enqueued(rows, b, next);
    }

    method Earliest(ids: set<Id>) returns (id: Id)
      requires ids != {} && ids <= rows.Keys
      ensures id in ids && forall other <- ids :: rows[id].seqNo <= rows[other].seqNo
    {
      id :| id in ids;
      var left := ids - {id};
      while left != {}
        invariant left <= ids && id in ids
        invariant forall other <- ids - left :: rows[id].seqNo <= rows[other].seqNo
        decreases left
      {
        var other :| other in left;
        left := left - {other};
        if rows[other].seqNo < rows[id].seqNo {
          id := other;
        }
      }
    }

    /** The selection inside the claim. */
    method Select(now: int, staleAfter: int, limit: int) returns (ids: set<Id>)
      requires Valid()
      ensures Picks(rows, ids, now, staleAfter, limit)
    {
      ids := {};
      var left := TakeableIn(rows, now, staleAfter);
      while left != {} && (limit <= 0 || |ids| < limit)
        invariant ids + left == TakeableIn(rows, now, staleAfter) && ids !! left
        invariant limit > 0 ==> |ids| <= limit
        invariant Earlier(rows, ids, left)
        decreases left
      {
        var id := Earliest(left);
        EarlierNext(rows, ids, left, id);
        ids, left := ids + {id}, left - {id};
      }
      SizeOfRest(TakeableIn(rows, now, staleAfter), ids, left);
    }

    /** Puts what the statement returned, in no promised order, back into arrival order. */
    method Sort(ids: set<Id>) returns (out: seq<Blob>)
      requires Valid() && ids <= rows.Keys
      ensures InArrivalOrder(rows, ids, out)
    {
      out := [];
      var left := ids;
      while left != {}
        invariant left <= ids && InArrivalOrder(rows, ids - left, out)
        invariant forall b <- out, id <- left :: rows[b.id].seqNo < rows[id].seqNo
        decreases left
      {
        var id := Earliest(left);
        assert forall other <- left :: other != id ==> rows[id].seqNo < rows[other].seqNo;
        InOrderNext(rows, ids - left, out, id);
        assert ids - (left - {id}) == (ids - left) + {id};
        out := out + [rows[id].blob];
        left := left - {id};
      }
      assert ids - {} == ids;
    }

    /**
     * Claims rows for one flush in a single statement: those free to be taken, the earliest
     * first, stamped with the time and the owner. No grace at all takes over any claim.
     */
    method ClaimQueued(owner: nat, now: int, staleAfter: int, limit: int) returns (out: seq<Blob>)
      requires Valid()
      modifies this
      ensures Valid()
      ensures Picks(old(rows), IdsIn(out), now, staleAfter, limit)
      ensures rows == Claimed(old(rows), IdsIn(out), now, owner)
      ensures InArrivalOrder(old(rows), IdsIn(out), out)
    {
      var ids := Select(now, staleAfter, limit);
      out := Sort(ids);
      rows := Claimed(rows, ids, now, owner);
    }

    /**
     * Runs one statement for each id inside a transaction. A statement that fails, or a commit that
     * does, rolls all of it back.
     */
    method EachQueued(ids: seq<Id>, stmt: Statement) returns (ok: bool)
      requires Valid()
      modifies this
      ensures Valid() && rows == if ok then ExecAll(stmt, old(rows), Named(ids)) else old(rows)
      ensures ids == [] || steady ==> ok
    {
      if ids == [] {
        assert ExecAll(stmt, rows, {}) == rows;
        return true;
      }
      var pending := rows;
      for i := 0 to |ids|
        invariant rows == old(rows) && pending == ExecAll(stmt, rows, Named(ids[..i]))
      {
        OneMoreExec(stmt, rows, ids, i);
        ok, pending := ExecOne(stmt, pending, ids[i]);
        if !ok {
          return;
        }
      }
      ok := *;
      ok := ok || steady;
      if ok {
        assert ids[..|ids|] == ids;
        rows := pending;
      }
    }

    /** One id's statement; one that fails has no effect. */
    method ExecOne(stmt: Statement, t: Table, id: Id) returns (ok: bool, next: Table)
      ensures next == if ok then Exec(stmt, t, id) else t
      ensures steady ==> ok
    {
      ok := *;
      ok := ok || steady;
      next := if ok then Exec(stmt, t, id) else t;
    }

    /** Returns rows to the queue, whoever holds them now: all of them or none. */
    method ReleaseQueued(ids: seq<Id>) returns (ok: bool)
      requires Valid()
      modifies this
      ensures Valid() && rows == if ok then Released(old(rows), Named(ids)) else old(rows)
      ensures ok ==> Free(rows, Named(ids) * rows.Keys)
      ensures steady ==> ok
    {
      ok := EachQueued(ids, Release);
    }

    /** Removes rows once their records are on the network and catalogued: all of them or none. */
    method DropQueued(ids: seq<Id>) returns (ok: bool)
      requires Valid()
      modifies this
      ensures Valid() && rows == if ok then Dropped(old(rows), Named(ids)) else old(rows)
      ensures steady ==> ok
    {
      ok := EachQueued(ids, Delete);
    }

    method Summarise() returns (s: QueueState)
      ensures Summarises(s, rows)
    {
      s := QueueState(|rows|, 0, None, None);
      var left := rows.Keys;
      while left != {}
        invariant left <= rows.Keys && s.records == |rows|
        invariant s.bytes + TotalBytes(rows, left) == TotalBytes(rows, rows.Keys)
        invariant (left == rows.Keys <==> s.oldest.None?) && (left == rows.Keys <==> s.newest.None?)
        invariant s.oldest.Some? && s.newest.Some? ==>
          && (forall id <- rows.Keys - left :: s.oldest.value <= rows[id].blob.queuedAt <= s.newest.value)
          && (exists id <- rows :: rows[id].blob.queuedAt == s.oldest.value)
          && (exists id <- rows :: rows[id].blob.queuedAt == s.newest.value)
        decreases left
      {
        var id :| id in left;
        TotalWithout(rows, left, id);
        left := left - {id};
        var at := rows[id].blob.queuedAt;
        s := QueueState(s.records, s.bytes + |rows[id].blob.payload|,
          if s.oldest.None? || at < s.oldest.value then Some(at) else s.oldest,
          if s.newest.None? || at > s.newest.value then Some(at) else s.newest);
      }
    }
  }

  lemma EarlierNext(t: Table, ids: set<Id>, left: set<Id>, id: Id)
    requires Ordered(t) && ids <= t.Keys && left <= t.Keys && Earlier(t, ids, left) && ids !! left && id in left
    requires forall other <- left :: t[id].seqNo <= t[other].seqNo
    ensures Earlier(t, ids + {id}, left - {id}) && |ids + {id}| == |ids| + 1
    ensures (ids + {id}) + (left - {id}) == ids + left && (ids + {id}) !! (left - {id})
  {
  }

  lemma SizeOfRest(free: set<Id>, ids: set<Id>, left: set<Id>)
    requires ids + left == free && ids !! left
    ensures left == free - ids && |free| == |ids| + |left|
    ensures left == {} ==> ids == free
  {
  }

  lemma InOrderNext(t: Table, ids: set<Id>, out: seq<Blob>, id: Id)
    requires Ordered(t) && InArrivalOrder(t, ids, out) && id in t && id !in ids
    requires forall b <- out :: t[b.id].seqNo < t[id].seqNo
    ensures InArrivalOrder(t, ids + {id}, out + [t[id].blob])
  {
    assert IdsIn(out + [t[id].blob]) == IdsIn(out) + {id};
  }
}
