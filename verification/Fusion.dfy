/** Weighted reciprocal rank fusion: the vector ranking and the lexical ranking united into one pool. */
module Fusion {
  import opened Records
  import opened MatchHeap

  const RRF_K: real := 60.0
  const DEFAULT_LEXICAL_WEIGHT: real := 0.03

  datatype Candidate = Candidate(id: Id, score: real, similarity: real, fused: real, lexical: real, boost: real)

  /** Zero is the unset weight; a negative one asks for the vector pass alone. */
  function LexicalWeight(asked: real): (w: real)
    ensures w >= 0.0 && (w == 0.0 <==> asked < 0.0)
  {
    if asked == 0.0 then DEFAULT_LEXICAL_WEIGHT else if asked < 0.0 then 0.0 else asked
  }

  function Share(weight: real, rank: nat): real { weight / (RRF_K + rank as real + 1.0) }

  // ---------- what fusion promises ----------

  /** Where the lexical pass first put an id, or the length when it did not. */
  function FirstRank(lexical: seq<Id>, id: Id): (r: nat)
    ensures r <= |lexical| && (r < |lexical| <==> id in lexical)
    ensures r < |lexical| ==> lexical[r] == id && forall j :: 0 <= j < r ==> lexical[j] != id
  {
    if lexical == [] || lexical[0] == id then 0 else 1 + FirstRank(lexical[1..], id)
  }

  function VectorRank(matches: seq<Match>, id: Id): (r: nat)
    ensures r <= |matches|
    ensures r < |matches| ==> matches[r].id == id
    ensures forall j :: 0 <= j < r ==> matches[j].id != id
  {
    if matches == [] || matches[0].id == id then 0 else 1 + VectorRank(matches[1..], id)
  }

  function IdsOf(matches: seq<Match>): (ids: seq<Id>)
    ensures |ids| == |matches| && forall i :: 0 <= i < |ids| ==> ids[i] == matches[i].id
  {
    seq(|matches|, i requires 0 <= i < |matches| => matches[i].id)
  }

  /** The pool's order: what the vector pass returned, then what only the lexical pass did, by its best rank. */
  function Union(ids: seq<Id>, lexical: seq<Id>): seq<Id>
    decreases |lexical|
  {
    if lexical == [] then ids
    else
      var earlier := Union(ids, lexical[..|lexical| - 1]);
      if lexical[|lexical| - 1] in earlier then earlier else earlier + [lexical[|lexical| - 1]]
  }

  /** The score a record deserves: a share for each pass that found it, by the best rank that pass gave it. */
  function Deserved(matches: seq<Match>, lexical: seq<Id>, weight: real, id: Id): Candidate {
    var v, l := VectorRank(matches, id), FirstRank(lexical, id);
    var vector := if v < |matches| then Share(1.0, v) else 0.0;
    var terms := if l < |lexical| then Share(weight, l) else 0.0;
    Candidate(id, vector + terms, if v < |matches| then matches[v].score else 0.0, vector + terms, terms, 0.0)
  }

  /** Everything either pass found, at what it deserves. */
  function Pool(matches: seq<Match>, lexical: seq<Id>, weight: real): (pool: seq<Candidate>)
    ensures |pool| == |Union(IdsOf(matches), lexical)|
  {
    var ids := Union(IdsOf(matches), lexical);
    seq(|ids|, i requires 0 <= i < |ids| => Deserved(matches, lexical, weight, ids[i]))
  }

  // ---------- what a rank is worth ----------

  /** In either pass a better rank earns strictly more. */
  lemma BetterRankEarnsMore(weight: real, better: nat, worse: nat)
    requires weight > 0.0 && better < worse
    ensures Share(weight, better) > Share(weight, worse) > 0.0
  {
    Quotients(weight, RRF_K + better as real + 1.0, RRF_K + worse as real + 1.0);
  }

  lemma Quotients(a: real, low: real, high: real)
    requires a > 0.0 && 0.0 < low < high
    ensures a / low > a / high > 0.0
  {
    var x, y := a / low, a / high;
    assert x * low == a && y * high == a;
    Positive(y, high);
    if x <= y {
      Scaled(x, y, low);
      Scaled(low, high, y);
    }
  }

  lemma Positive(y: real, high: real)
    requires y * high > 0.0 && high > 0.0
    ensures y > 0.0
  {
  }

  lemma Scaled(x: real, y: real, times: real)
    requires x <= y && times > 0.0
    ensures x * times <= y * times && (x < y ==> x * times < y * times)
  {
  }

  /** And a larger weight earns more at the same rank. */
  lemma LargerWeightEarnsMore(low: real, high: real, rank: nat)
    requires low < high
    ensures Share(low, rank) < Share(high, rank)
  {
    var d := RRF_K + rank as real + 1.0;
    var x, y := low / d, high / d;
    assert x * d == low && y * d == high;
    if x >= y {
      Scaled(y, x, d);
    }
  }

  /** No pass puts the first record behind the second, and one with a say puts it ahead. */
  ghost predicate Ahead(matches: seq<Match>, lexical: seq<Id>, weight: real, a: Id, b: Id) {
    && VectorRank(matches, a) <= VectorRank(matches, b) && FirstRank(lexical, a) <= FirstRank(lexical, b)
    && (VectorRank(matches, a) < VectorRank(matches, b) || (weight > 0.0 && FirstRank(lexical, a) < FirstRank(lexical, b)))
  }

  /** A record no pass puts behind another, and one puts ahead of it, deserves strictly more. */
  lemma AheadDeservesMore(matches: seq<Match>, lexical: seq<Id>, weight: real, a: Id, b: Id)
    requires weight >= 0.0 && Ahead(matches, lexical, weight, a, b)
    ensures Deserved(matches, lexical, weight, a).fused > Deserved(matches, lexical, weight, b).fused
  {
    EarnsNoLess(1.0, VectorRank(matches, a), VectorRank(matches, b), |matches|);
    EarnsNoLess(weight, FirstRank(lexical, a), FirstRank(lexical, b), |lexical|);
  }

  function Earned(weight: real, rank: nat, length: nat): real { if rank < length then Share(weight, rank) else 0.0 }

  lemma EarnsNoLess(weight: real, better: nat, worse: nat, length: nat)
    requires weight >= 0.0 && better <= worse <= length
    ensures Earned(weight, better, length) >= Earned(weight, worse, length)
    ensures weight > 0.0 && better < worse ==> Earned(weight, better, length) > Earned(weight, worse, length)
  {
    if better < worse {
      SharePositive(weight, better);
      SharePositive(weight, worse);
      if weight > 0.0 {
        BetterRankEarnsMore(weight, better, worse);
      }
    }
  }

  /**
   * With both passes of equal say, a record both have among their first 61 beats one that is first in one
   * alone, and one that neither has there does not.
   */
  lemma AgreementBeatsFirst(v: nat, l: nat)
    ensures v <= 60 && l <= 60 ==> Share(1.0, v) + Share(1.0, l) > Share(1.0, 0)
    ensures v > 60 && l > 60 ==> Share(1.0, v) + Share(1.0, l) <= Share(1.0, 0)
  {
    HalfOfFirst(v);
    HalfOfFirst(l);
  }

  lemma HalfOfFirst(rank: nat)
    ensures rank <= 60 ==> Share(1.0, rank) > Share(1.0, 0) / 2.0
    ensures rank > 60 ==> Share(1.0, rank) <= Share(1.0, 0) / 2.0
  {
    assert Share(1.0, 60) == 1.0 / 121.0 && Share(1.0, 61) == 1.0 / 122.0 && Share(1.0, 0) == 1.0 / 61.0;
    if rank < 60 {
      BetterRankEarnsMore(1.0, rank, 60);
    } else if rank > 61 {
      BetterRankEarnsMore(1.0, 61, rank);
    }
  }

  /** At the weight used unless asked otherwise, what the lexical pass alone found is behind the first 1973 matches. */
  lemma TermsAloneStayBehind(v: nat, l: nat)
    ensures v <= 1972 ==> Share(1.0, v) > Share(DEFAULT_LEXICAL_WEIGHT, l)
    ensures v > 1972 ==> Share(1.0, v) < Share(DEFAULT_LEXICAL_WEIGHT, 0)
  {
    assert Share(1.0, 1972) == 1.0 / 2033.0 && Share(1.0, 1973) == 1.0 / 2034.0;
    assert Share(DEFAULT_LEXICAL_WEIGHT, 0) == 0.03 / 61.0;
    if v < 1972 {
      BetterRankEarnsMore(1.0, v, 1972);
    } else if v > 1973 {
      BetterRankEarnsMore(1.0, 1973, v);
    }
    if l > 0 {
      BetterRankEarnsMore(DEFAULT_LEXICAL_WEIGHT, 0, l);
    }
  }

  /** The pool holds every record either pass found, once each. */
  lemma {:induction false} UnionHoldsAll(ids: seq<Id>, lexical: seq<Id>)
    requires AllDiffer(ids)
    ensures AllDiffer(Union(ids, lexical)) && ids <= Union(ids, lexical)
    ensures forall id :: id in Union(ids, lexical) <==> id in ids || id in lexical
    decreases |lexical|
  {
    if lexical != [] {
      UnionHoldsAll(ids, lexical[..|lexical| - 1]);
      assert lexical == lexical[..|lexical| - 1] + [lexical[|lexical| - 1]];
    }
  }

  // ---------- fusing ----------

  /** The pool after some of the lexical ranking, before scores are copied over. */
  ghost predicate Fusing(matches: seq<Match>, lexical: seq<Id>, weight: real,
                         fused: seq<Candidate>, at: map<Id, nat>)
  {
    var ids := Union(IdsOf(matches), lexical);
    && |fused| == |ids|
    && (forall i {:trigger Pooled(matches, lexical, weight, ids[i], fused[i])} | 0 <= i < |ids| ::
          Pooled(matches, lexical, weight, ids[i], fused[i]))
    && (forall i :: 0 <= i < |ids| ==> ids[i] in at && at[ids[i]] == i)
    && (forall id <- at :: at[id] < |ids| && ids[at[id]] == id)
  }

  ghost predicate Pooled(matches: seq<Match>, lexical: seq<Id>, weight: real, id: Id, c: Candidate) {
    c == Deserved(matches, lexical, weight, id).(score := 0.0)
  }

  lemma FirstRankMore(lexical: seq<Id>, id: Id, next: Id)
    ensures FirstRank(lexical + [next], id)
      == if id in lexical then FirstRank(lexical, id) else if id == next then |lexical| else |lexical| + 1
  {
    var r := FirstRank(lexical + [next], id);
    assert (lexical + [next])[|lexical|] == next;
    assert forall j :: 0 <= j < |lexical| ==> (lexical + [next])[j] == lexical[j];
    if id in lexical {
      var q := FirstRank(lexical, id);
      assert (lexical + [next])[q] == id;
    }
  }

  /** A further lexical result changes what is deserved by its own record only, and only the first time. */
  lemma DeservedMore(matches: seq<Match>, lexical: seq<Id>, weight: real, id: Id, next: Id)
    ensures var after := Deserved(matches, lexical + [next], weight, id);
      var before := Deserved(matches, lexical, weight, id);
      && (id != next || id in lexical ==> after == before)
      && (id == next && id !in lexical ==>
            && before.lexical == 0.0 && after.lexical == Share(weight, |lexical|)
            && after == before.(lexical := after.lexical, fused := before.fused + after.lexical,
                                score := before.fused + after.lexical))
  {
    FirstRankMore(lexical, id, next);
  }

  lemma SharePositive(weight: real, rank: nat)
    requires weight >= 0.0
    ensures Share(weight, rank) >= 0.0 && (weight > 0.0 ==> Share(weight, rank) > 0.0)
    ensures weight == 0.0 ==> Share(weight, rank) == 0.0
  {
    var d := RRF_K + rank as real + 1.0;
    assert d > 0.0;
  }

  /** Unites the two passes. A record both found is scored by both, and by its best rank in each. */
  method Fuse(matches: seq<Match>, lexical: seq<Id>, weight: real) returns (fused: seq<Candidate>)
    requires weight >= 0.0 && AllDiffer(IdsOf(matches))
    ensures fused == Pool(matches, lexical, weight)
  {
    var at;
    fused, at := FuseVector(matches, weight);
    for r := 0 to |lexical|
      invariant Fusing(matches, lexical[..r], weight, fused, at)
    {
      assert lexical[..r + 1] == lexical[..r] + [lexical[r]];
      fused, at := FuseTerm(matches, lexical[..r], r, weight, lexical[r], fused, at);
    }
    assert lexical[..|lexical|] == lexical;
    ghost var ids := Union(IdsOf(matches), lexical);
    ghost var pool := fused;
    for i := 0 to |fused|
      invariant |fused| == |pool|
      invariant forall j :: 0 <= j < |fused| ==> fused[j] == if j < i then pool[j].(score := pool[j].fused) else pool[j]
    {
      fused := fused[i := fused[i].(score := fused[i].fused)];
    }
    forall i | 0 <= i < |fused| ensures fused[i] == Deserved(matches, lexical, weight, ids[i]) {
      assert Pooled(matches, lexical, weight, ids[i], pool[i]);
    }
  }

  lemma {:induction false} VectorRankIs(matches: seq<Match>, i: nat)
    requires AllDiffer(IdsOf(matches)) && i < |matches|
    ensures VectorRank(matches, matches[i].id) == i
  {
    var ids := IdsOf(matches);
    forall j | 0 <= j < i ensures matches[j].id != matches[i].id {
      assert ids[j] != ids[i];
    }
  }

  /** What the first `i` matches contribute, before any lexical result. */
  ghost predicate VectorPool(matches: seq<Match>, weight: real, i: nat, fused: seq<Candidate>, at: map<Id, nat>)
    requires i <= |matches|
  {
    && |fused| == i
    && (forall j {:trigger Pooled(matches, [], weight, matches[j].id, fused[j])} | 0 <= j < i ::
          Pooled(matches, [], weight, matches[j].id, fused[j]))
    && (forall j :: 0 <= j < i ==> matches[j].id in at && at[matches[j].id] == j)
    && (forall id <- at :: at[id] < i && matches[at[id]].id == id)
  }

  lemma VectorNext(matches: seq<Match>, weight: real, i: nat, fused: seq<Candidate>, at: map<Id, nat>)
    requires AllDiffer(IdsOf(matches)) && i < |matches| && VectorPool(matches, weight, i, fused, at)
    ensures var m := matches[i];
      VectorPool(matches, weight, i + 1, fused + [Candidate(m.id, 0.0, m.score, Share(1.0, i), 0.0, 0.0)], at[m.id := i])
  {
    var m := matches[i];
    var pool, index := fused + [Candidate(m.id, 0.0, m.score, Share(1.0, i), 0.0, 0.0)], at[m.id := i];
    VectorRankIs(matches, i);
    forall j | 0 <= j < i + 1 ensures Pooled(matches, [], weight, matches[j].id, pool[j]) {
      assert j < i ==> Pooled(matches, [], weight, matches[j].id, fused[j]);
    }
    forall j | 0 <= j < i + 1 ensures matches[j].id in index && index[matches[j].id] == j {
      assert IdsOf(matches)[j] == matches[j].id && IdsOf(matches)[i] == m.id;
    }
  }

  method FuseVector(matches: seq<Match>, ghost weight: real) returns (fused: seq<Candidate>, at: map<Id, nat>)
    requires AllDiffer(IdsOf(matches))
    ensures Fusing(matches, [], weight, fused, at)
  {
    fused, at := [], map[];
    for i := 0 to |matches|
      invariant VectorPool(matches, weight, i, fused, at)
    {
      var m := matches[i];
      VectorNext(matches, weight, i, fused, at);
      at := at[m.id := |fused|];
      fused := fused + [Candidate(m.id, 0.0, m.score, Share(1.0, i), 0.0, 0.0)];
    }
    forall j | 0 <= j < |matches| ensures Pooled(matches, [], weight, IdsOf(matches)[j], fused[j]) {
      assert Pooled(matches, [], weight, matches[j].id, fused[j]);
    }
  }

  /** Whether a pooled record already has its lexical share, so that a repeat of it changes nothing. */
  lemma RepeatChangesNothing(matches: seq<Match>, lexical: seq<Id>, weight: real, id: Id, c: Candidate, rank: nat)
    requires weight >= 0.0 && Pooled(matches, lexical, weight, id, c)
    ensures c.lexical > 0.0 ==> id in lexical
    ensures id in lexical && !(c.lexical > 0.0) ==>
      c == c.(lexical := Share(weight, rank), fused := c.fused + Share(weight, rank))
  {
    SharePositive(weight, FirstRank(lexical, id));
    SharePositive(weight, rank);
  }

  lemma PoolAfter(matches: seq<Match>, lexical: seq<Id>, weight: real, next: Id, id: Id, c: Candidate)
    requires Pooled(matches, lexical, weight, id, c)
    ensures id != next || id in lexical ==> Pooled(matches, lexical + [next], weight, id, c)
    ensures id == next && id !in lexical ==>
      Pooled(matches, lexical + [next], weight, id,
             c.(lexical := Share(weight, |lexical|), fused := c.fused + Share(weight, |lexical|)))
  {
    DeservedMore(matches, lexical, weight, id, next);
  }

  /** Every pooled record but the one this result names stays as it is. */
  lemma OthersStay(matches: seq<Match>, lexical: seq<Id>, weight: real, next: Id,
                   ids: seq<Id>, fused: seq<Candidate>, i: nat)
    requires |fused| == |ids| && i < |ids| && ids[i] != next
    requires Pooled(matches, lexical, weight, ids[i], fused[i])
    ensures Pooled(matches, lexical + [next], weight, ids[i], fused[i])
  {
    PoolAfter(matches, lexical, weight, next, ids[i], fused[i]);
  }

  lemma NewInPool(matches: seq<Match>, lexical: seq<Id>, weight: real, id: Id)
    requires id !in IdsOf(matches) && id !in lexical
    ensures Pooled(matches, lexical + [id], weight, id,
                   Candidate(id, 0.0, 0.0, Share(weight, |lexical|), Share(weight, |lexical|), 0.0))
  {
    FirstRankMore(lexical, id, id);
    forall j | 0 <= j < |matches| ensures matches[j].id != id {
      assert IdsOf(matches)[j] in IdsOf(matches);
    }
    assert 0.0 + Share(weight, |lexical|) == Share(weight, |lexical|);
  }

  /** Takes one lexical result: a new record joins at the end, a known one gains its share once. */
  method FuseTerm(matches: seq<Match>, ghost lexical: seq<Id>, rank: nat, weight: real, id: Id,
                  fused0: seq<Candidate>, at0: map<Id, nat>) returns (fused: seq<Candidate>, at: map<Id, nat>)
    requires weight >= 0.0 && AllDiffer(IdsOf(matches)) && rank == |lexical|
    requires Fusing(matches, lexical, weight, fused0, at0)
    ensures Fusing(matches, lexical + [id], weight, fused, at)
  {
    fused, at := fused0, at0;
    ghost var ids := Union(IdsOf(matches), lexical);
    assert (lexical + [id])[..|lexical|] == lexical;
    UnionHoldsAll(IdsOf(matches), lexical);
    var contribution := Share(weight, rank);
    if id in at {
      var i := at[id];
      assert Pooled(matches, lexical, weight, ids[i], fused0[i]);
      RepeatChangesNothing(matches, lexical, weight, id, fused0[i], rank);
      PoolAfter(matches, lexical, weight, id, id, fused0[i]);
      if !(fused[i].lexical > 0.0) {
        fused := fused[i := fused[i].(lexical := contribution, fused := fused[i].fused + contribution)];
      }
    } else {
      assert id !in ids by {
        assert forall j :: 0 <= j < |ids| ==> ids[j] in at;
      }
      NewInPool(matches, lexical, weight, id);
      at := at[id := |fused|];
      fused := fused + [Candidate(id, 0.0, 0.0, contribution, contribution, 0.0)];
    }
    ghost var after := Union(IdsOf(matches), lexical + [id]);
    forall j | 0 <= j < |after| ensures Pooled(matches, lexical + [id], weight, after[j], fused[j]) {
      if j < |ids| && ids[j] != id {
        assert Pooled(matches, lexical, weight, ids[j], fused0[j]);
        OthersStay(matches, lexical, weight, id, ids, fused0, j);
      }
    }
  }
}
