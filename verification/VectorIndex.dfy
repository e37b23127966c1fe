/** The in-memory index: one row per record in a flat array, and a bounded search over all of it. */
module VectorIndex {
  import opened Bytes
  import opened Records
  import opened KeyedLog
  import opened IndexFile
  import opened MatchHeap

  datatype Row = Row(id: Id, vector: seq<Float32>)

  function RowKey(r: Row): Id { r.id }

  /** The similarity of two vectors; what the floating-point arithmetic rounds is not modelled. */
  type Similarity = (seq<Float32>, seq<Float32>) -> real

  datatype AddError = Added | ForeignModel | WrongWidth

  class Index {
    const dim: nat
    const model: Bytes
    var ids: seq<Id>
    var vectors: seq<Float32>
    var at: map<Id, nat>

    ghost predicate Valid()
      reads this
    {
      && |vectors| == |ids| * dim
      && (forall i :: 0 <= i < |ids| ==> ids[i] in at && at[ids[i]] == i)
      && (forall id <- at :: at[id] < |ids| && ids[at[id]] == id)
    }

    /** The rows of the matrix, each under its record. */
    ghost function Held(): (rows: seq<Row>)
      reads this
      requires Valid()
      ensures |rows| == |ids|
    {
      RowsOf(ids, vectors, dim)
    }

    constructor (model: Bytes, dim: nat)
      ensures Valid() && Held() == [] && this.model == model && this.dim == dim
    {
      this.model, this.dim := model, dim;
      ids, vectors, at := [], [], map[];
    }

    /** Puts a vector in its record's row, or in a new last row. */
    method Add(id: Id, model: Bytes, vector: seq<Float32>) returns (r: AddError)
      requires Valid()
      modifies this
      ensures Valid()
      ensures r == if model != this.model then ForeignModel else if |vector| != dim then WrongWidth else Added
      ensures Held() == if r == Added then Upsert(RowKey, old(Held()), Row(id, vector)) else old(Held())
    {
      if model != this.model {
        return ForeignModel;
      }
      if |vector| != dim {
        return WrongWidth;
      }
      PositionOf(ids, vectors, at, dim, id);
      if id in at {
        var p := at[id];
        RowBounds(p, |ids|, dim);
        OverwriteRow(ids, vectors, dim, p, vector);
        vectors := vectors[..p * dim] + vector + vectors[(p + 1) * dim..];
      } else {
        AppendRow(ids, vectors, dim, id, vector);
        at := at[id := |ids|];
        ids := ids + [id];
        vectors := vectors + vector;
      }
      r := Added;
    }

    /** Every held record scored against a query. */
    ghost function Scored(dot: Similarity, query: seq<Float32>): (all: seq<Match>)
      reads this
      requires Valid()
      ensures |all| == |ids|
    {
      ScoreRows(dot, query, Held())
    }

    /** The `k` nearest records, best first. */
    method Search(dot: Similarity, query: seq<Float32>, k: int) returns (out: seq<Match>, ok: bool)
      requires Valid()
      ensures ok <==> |query| == dim
      ensures ok ==> BestOf(Scored(dot, query), if k < 0 then 0 else k, out)
    {
      if |query| != dim {
        return [], false;
      }
      if k <= 0 {
        return [], true;
      }
      ok := true;
      var best := new Heap();
      ghost var all := Scored(dot, query);
      ghost var left := Scan(dot, query, k, best);
      ghost var kept := best.h;
      out := Drain(best);
      DistinctIds(ids, at);
      SearchResult(all, left, kept, k, out);
    }

    /** Offers every row, in the order the rows stand, to a heap of at most `k`. */
    method Scan(dot: Similarity, query: seq<Float32>, k: nat, best: Heap) returns (ghost left: multiset<Match>)
      requires Valid() && k > 0 && best.h == []
      modifies best
      ensures best.Valid() && Partition(Scored(dot, query), best.h, left, k)
    {
      left := multiset{};
      ghost var all := Scored(dot, query);
      for n := 0 to |ids|
        invariant best.Valid() && Partition(all[..n], best.h, left, k)
      {
        TakeNext(all, n);
        RowBounds(n, |ids|, dim);
        var score := dot(query, vectors[n * dim..(n + 1) * dim]);
        left := Offer(best, Match(ids[n], score), k, all[..n], left);
      }
      assert all[..|ids|] == all;
    }
  }

  lemma TakeNext(all: seq<Match>, n: nat)
    requires n < |all|
    ensures all[..n + 1] == all[..n] + [all[n]]
  {
  }

  /**
   * `out` is `k` of the matches, or all of them, best first and each once; nothing left out scores
   * above anything kept.
   */
  ghost predicate BestOf(all: seq<Match>, k: nat, out: seq<Match>) {
    && |out| == (if k < |all| then k else |all|)
    && multiset(out) <= multiset(all)
    && Descending(out)
    && (forall i, j :: 0 <= i < j < |out| ==> out[i].id != out[j].id)
    && Separated(multiset(all) - multiset(out), out)
  }

  /** What has been scored so far is split into what the heap keeps and what was refused or evicted. */
  ghost predicate Partition(seen: seq<Match>, kept: seq<Match>, left: multiset<Match>, k: nat) {
    && |kept| == (if k < |seen| then k else |seen|)
    && multiset(seen) == multiset(kept) + left
    && (|seen| <= k ==> left == multiset{})
    && Separated(left, kept)
  }

  /** Pushes while there is room, and afterwards replaces the worst kept match only by a better one. */
  method Offer(best: Heap, x: Match, k: nat, ghost seen: seq<Match>, ghost left: multiset<Match>)
    returns (ghost after: multiset<Match>)
    requires best.Valid() && k > 0 && Partition(seen, best.h, left, k)
    modifies best
    ensures best.Valid() && Partition(seen + [x], best.h, after, k)
  {
    ghost var h := best.h;
    if |best.h| < k {
      best.Push(x);
      after := left;
      Kept(seen, h, left, k, x, best.h);
    } else if x.score > best.h[0].score {
      Evicted(left, best.h, x);
      after := left + multiset{best.h[0]};
      best.ReplaceLeast(x);
      Moved(seen, h, left, k, x, best.h, h[0]);
    } else {
      Refused(left, best.h, x);
      after := left + multiset{x};
      Moved(seen, h, left, k, x, best.h, x);
    }
  }

  lemma Kept(seen: seq<Match>, h: seq<Match>, left: multiset<Match>, k: nat, x: Match, after: seq<Match>)
    requires Partition(seen, h, left, k) && |h| < k
    requires multiset(after) == multiset(h) + multiset{x} && |after| == |h| + 1
    ensures Partition(seen + [x], after, left, k)
  {
    assert |seen| < k;
    assert multiset(seen + [x]) == multiset(seen) + multiset{x};
  }

  lemma Moved(seen: seq<Match>, h: seq<Match>, left: multiset<Match>, k: nat, x: Match, after: seq<Match>, out: Match)
    requires Partition(seen, h, left, k) && |h| == k && |after| == k
    requires multiset(after) + multiset{out} == multiset(h) + multiset{x}
    requires Separated(left + multiset{out}, after)
    ensures Partition(seen + [x], after, left + multiset{out}, k)
  {
    Exchange(multiset(seen), multiset(h), left, multiset{x}, multiset(after), multiset{out});
    assert multiset(seen + [x]) == multiset(seen) + multiset{x};
  }

  lemma Exchange(seen: multiset<Match>, h: multiset<Match>, left: multiset<Match>, x: multiset<Match>,
                 after: multiset<Match>, out: multiset<Match>)
    requires seen == h + left && after + out == h + x
    ensures seen + x == after + (left + out)
  {
    assert seen + x == (h + x) + left;
  }

  ghost function ScoreRows(dot: Similarity, query: seq<Float32>, rows: seq<Row>): (all: seq<Match>)
    ensures |all| == |rows|
  {
    seq(|rows|, n requires 0 <= n < |rows| => Match(rows[n].id, dot(query, rows[n].vector)))
  }

  /** Ids held at their own positions are pairwise different. */
  lemma DistinctIds(ids: seq<Id>, at: map<Id, nat>)
    requires forall i :: 0 <= i < |ids| ==> ids[i] in at && at[ids[i]] == i
    ensures forall i, j :: 0 <= i < j < |ids| ==> ids[i] != ids[j]
  {
    forall i, j | 0 <= i < j < |ids| ensures ids[i] != ids[j] {
      assert at[ids[i]] == i && at[ids[j]] == j;
    }
  }

  /** Nothing left out scores above anything kept. */
  ghost predicate Separated(left: multiset<Match>, kept: seq<Match>) {
    forall x, i :: x in left && 0 <= i < |kept| ==> x.score <= kept[i].score
  }

  lemma SeparatedBy(left: multiset<Match>, a: seq<Match>, b: seq<Match>)
    requires Separated(left, a) && forall y <- b :: y in a
    ensures Separated(left, b)
  {
    forall x, i | x in left && 0 <= i < |b| ensures x.score <= b[i].score {
      assert b[i] in a;
    }
  }

  /** Replacing the least kept score by a higher one keeps everything left out below what is kept. */
  lemma Evicted(left: multiset<Match>, h: seq<Match>, x: Match)
    requires h != [] && Ordered(h, |h|) && Separated(left, h) && x.score > h[0].score
    ensures forall after: seq<Match> {:trigger Separated(left + multiset{h[0]}, after)} ::
      multiset(after) == multiset(h) - multiset{h[0]} + multiset{x} ==> Separated(left + multiset{h[0]}, after)
  {
    forall after: seq<Match> | multiset(after) == multiset(h) - multiset{h[0]} + multiset{x}
      ensures Separated(left + multiset{h[0]}, after)
    {
      forall y, i | y in left + multiset{h[0]} && 0 <= i < |after| ensures y.score <= after[i].score {
        assert after[i] in multiset(after);
        assert y.score <= h[0].score;
        if after[i] != x {
          assert after[i] in multiset(h);
          var j :| 0 <= j < |h| && h[j] == after[i];
          RootIsLeast(h, |h|, j);
        }
      }
    }
  }

  lemma Refused(left: multiset<Match>, h: seq<Match>, x: Match)
    requires h != [] && Ordered(h, |h|) && Separated(left, h) && x.score <= h[0].score
    ensures Separated(left + multiset{x}, h)
  {
    forall y, i | y in left + multiset{x} && 0 <= i < |h| ensures y.score <= h[i].score {
      RootIsLeast(h, |h|, i);
    }
  }

  ghost predicate Descending(s: seq<Match>) {
    forall i, j :: 0 <= i < j < |s| ==> s[i].score >= s[j].score
  }

  /** Empties the heap from the back of the result, so the best match ends up first. */
  method Drain(best: Heap) returns (out: seq<Match>)
    requires best.Valid()
    modifies best
    ensures |out| == old(|best.h|) && multiset(out) == old(multiset(best.h)) && Descending(out)
  {
    out := [];
    while |best.h| > 0
      invariant best.Valid() && |out| + |best.h| == old(|best.h|)
      invariant multiset(out) + multiset(best.h) == old(multiset(best.h))
      invariant Descending(out)
      invariant forall i, j :: 0 <= i < |out| && 0 <= j < |best.h| ==> out[i].score <= best.h[j].score
      decreases |best.h|
    {
      LeastBounds(best.h);
      ghost var before := best.h;
      var least := best.Pop();
      forall j | 0 <= j < |best.h|
        ensures least.score <= best.h[j].score
        ensures forall i :: 0 <= i < |out| ==> out[i].score <= best.h[j].score
      {
        assert best.h[j] in multiset(best.h);
        assert best.h[j] in multiset(before);
        assert best.h[j] in before;
      }
      out := [least] + out;
    }
  }

  lemma LeastBounds(h: seq<Match>)
    requires h != [] && Ordered(h, |h|)
    ensures forall j :: 0 <= j < |h| ==> h[0].score <= h[j].score
  {
    forall j | 0 <= j < |h| ensures h[0].score <= h[j].score { RootIsLeast(h, |h|, j); }
  }

  lemma SearchResult(all: seq<Match>, left: multiset<Match>, kept: seq<Match>, k: nat, out: seq<Match>)
    requires Partition(all, kept, left, k)
    requires multiset(out) == multiset(kept) && |out| == |kept| && Descending(out)
    requires forall i, j :: 0 <= i < j < |all| ==> all[i].id != all[j].id
    ensures BestOf(all, k, out)
  {
    assert multiset(all) - multiset(out) == left;
    forall y <- out ensures y in kept {
      assert y in multiset(kept);
    }
    SeparatedBy(left, kept, out);
    forall i, j | 0 <= i < j < |out| ensures out[i].id != out[j].id {
      PartDistinct(all, out, i, j);
    }
  }

  /** A part of a list of distinct records repeats none of them. */
  lemma PartDistinct(all: seq<Match>, out: seq<Match>, i: nat, j: nat)
    requires multiset(out) <= multiset(all) && i < j < |out|
    requires forall i, j :: 0 <= i < j < |all| ==> all[i].id != all[j].id
    ensures out[i].id != out[j].id
  {
    assert out[i] in multiset(out) && out[j] in multiset(out);
    var a :| 0 <= a < |all| && all[a] == out[i];
    var b :| 0 <= b < |all| && all[b] == out[j];
    if out[i].id == out[j].id {
      assert a == b;
      CountedTwice(out, i, j);
      OnceOnly(all, a);
    }
  }

  lemma CountedTwice(s: seq<Match>, i: nat, j: nat)
    requires i < j < |s| && s[i] == s[j]
    ensures multiset(s)[s[i]] >= 2
  {
    assert s == s[..i] + ([s[i]] + (s[i + 1..j] + ([s[j]] + s[j + 1..])));
  }

  lemma OnceOnly(s: seq<Match>, a: nat)
    requires a < |s| && forall i, j :: 0 <= i < j < |s| ==> s[i].id != s[j].id
    ensures multiset(s)[s[a]] == 1
  {
    assert s == s[..a] + ([s[a]] + s[a + 1..]);
    assert s[a] !in s[..a] && s[a] !in s[a + 1..];
  }

  // ---------- the flat matrix ----------

  ghost function RowsOf(ids: seq<Id>, vectors: seq<Float32>, dim: nat): (rows: seq<Row>)
    requires |vectors| == |ids| * dim
    ensures |rows| == |ids|
  {
    seq(|ids|, n requires 0 <= n < |ids| => RowBounds(n, |ids|, dim); Row(ids[n], vectors[n * dim..(n + 1) * dim]))
  }

  lemma RowBounds(n: nat, count: nat, dim: nat)
    requires n < count
    ensures 0 <= n * dim <= (n + 1) * dim == n * dim + dim <= count * dim
  {
    var rest := count - (n + 1);
    assert count * dim == (n + 1) * dim + rest * dim;
  }

  lemma RowOrder(n: nat, p: nat, dim: nat)
    requires n < p
    ensures (n + 1) * dim <= p * dim
  {
    RowBounds(n, p, dim);
  }

  lemma OverwriteRow(ids: seq<Id>, vectors: seq<Float32>, dim: nat, p: nat, vector: seq<Float32>)
    requires |vectors| == |ids| * dim && p < |ids| && |vector| == dim
    requires 0 <= p * dim <= (p + 1) * dim <= |vectors|
    ensures var after := vectors[..p * dim] + vector + vectors[(p + 1) * dim..];
      |after| == |vectors| && RowsOf(ids, after, dim) == RowsOf(ids, vectors, dim)[p := Row(ids[p], vector)]
  {
    RowBounds(p, |ids|, dim);
    var after := vectors[..p * dim] + vector + vectors[(p + 1) * dim..];
    forall n | 0 <= n < |ids|
      ensures RowsOf(ids, after, dim)[n] == if n == p then Row(ids[p], vector) else RowsOf(ids, vectors, dim)[n]
    {
      RowBounds(n, |ids|, dim);
      if n < p { RowOrder(n, p, dim); } else if n > p { RowOrder(p, n, dim); }
      SpliceSlice(vectors, vector, p * dim, (p + 1) * dim, n * dim, (n + 1) * dim);
    }
  }

  /** A slice on either side of a spliced region is untouched; the region itself is what was spliced in. */
  lemma SpliceSlice(v: seq<Float32>, w: seq<Float32>, a: nat, b: nat, x: nat, y: nat)
    requires a <= b <= |v| && |w| == b - a && x <= y <= |v|
    ensures var after := v[..a] + w + v[b..];
      && |after| == |v|
      && (y <= a || b <= x ==> after[x..y] == v[x..y])
      && (x == a && y == b ==> after[x..y] == w)
  {
  }

  lemma AppendRow(ids: seq<Id>, vectors: seq<Float32>, dim: nat, id: Id, vector: seq<Float32>)
    requires |vectors| == |ids| * dim && |vector| == dim
    ensures |vectors + vector| == |ids + [id]| * dim
    ensures RowsOf(ids + [id], vectors + vector, dim) == RowsOf(ids, vectors, dim) + [Row(id, vector)]
  {
    RowBounds(|ids|, |ids| + 1, dim);
    forall n | 0 <= n <= |ids|
      ensures RowsOf(ids + [id], vectors + vector, dim)[n]
        == if n == |ids| then Row(id, vector) else RowsOf(ids, vectors, dim)[n]
    {
      RowBounds(n, |ids| + 1, dim);
      if n < |ids| { RowBounds(n, |ids|, dim); }
    }
  }

  lemma PositionOf(ids: seq<Id>, vectors: seq<Float32>, at: map<Id, nat>, dim: nat, id: Id)
    requires |vectors| == |ids| * dim
    requires forall i :: 0 <= i < |ids| ==> ids[i] in at && at[ids[i]] == i
    requires forall id <- at :: at[id] < |ids| && ids[at[id]] == id
    ensures IndexOf(RowKey, RowsOf(ids, vectors, dim), id) == if id in at then at[id] else |ids|
  {
    var rows := RowsOf(ids, vectors, dim);
    var i := IndexOf(RowKey, rows, id);
    assert i < |rows| ==> rows[i].id == id;
    if id in at {
      assert rows[at[id]].id == id;
    }
  }
}
