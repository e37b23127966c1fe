/** Ordering the fused pool: a soft filter that may move a record but never remove one, and two hard selectors. */
module Ranking {
  import opened Bytes
  import opened Records
  import opened Fusion
  import MatchHeap

  datatype Weights = Weights(tag: real, typ: real)

  const DEFAULT_WEIGHTS := Weights(0.002, 0.00067)

  function OrDefault(w: Weights): Weights { if w == Weights(0.0, 0.0) then DEFAULT_WEIGHTS else w }

  datatype Meta = Meta(kind: Kind, typ: Bytes, tags: seq<Bytes>)

  datatype Filter = Filter(tags: seq<Bytes>, types: seq<Bytes>)

  predicate Empty(f: Filter) { f.tags == [] && f.types == [] }

  /** How many of the wanted tags the record carries, both in normal form. */
  function Matched(normal: Bytes -> Bytes, wanted: seq<Bytes>, carried: set<Bytes>): (n: nat)
    ensures n <= |wanted|
  {
    if wanted == [] then 0
    else Matched(normal, wanted[..|wanted| - 1], carried) + if normal(wanted[|wanted| - 1]) in carried then 1 else 0
  }

  function Carried(normal: Bytes -> Bytes, tags: seq<Bytes>): set<Bytes> { set t <- tags :: normal(t) }

  function TagShare(weight: real, matched: nat, wanted: nat): real
    requires wanted > 0
  {
    weight * matched as real / wanted as real
  }

  /** The share of the wanted tags carried, and whether the type is one of those wanted, each at its weight. */
  function Boost(normal: Bytes -> Bytes, f: Filter, w: Weights, meta: Meta): real {
    if Empty(f) then 0.0
    else
      var matched := Matched(normal, f.tags, Carried(normal, meta.tags));
      (if f.tags == [] then 0.0 else TagShare(OrDefault(w).tag, matched, |f.tags|))
      + (if meta.typ in f.types then OrDefault(w).typ else 0.0)
  }

  function Up(weight: real): real { if weight > 0.0 then weight else 0.0 }

  function Down(weight: real): real { if weight < 0.0 then weight else 0.0 }

  /** The furthest any filter moves a record up, and down: a weight may have either sign. */
  function MostUp(w: Weights): real { Up(OrDefault(w).tag) + Up(OrDefault(w).typ) }

  function MostDown(w: Weights): real { Down(OrDefault(w).tag) + Down(OrDefault(w).typ) }

  /** No filter moves a record up by more than its positive weights together, or down by more than its negative ones. */
  lemma BoostIsBounded(normal: Bytes -> Bytes, f: Filter, w: Weights, meta: Meta)
    ensures MostDown(w) <= Boost(normal, f, w, meta) <= MostUp(w)
  {
    if f.tags != [] {
      ShareOf(OrDefault(w).tag, Matched(normal, f.tags, Carried(normal, meta.tags)), |f.tags|);
    }
  }

  lemma ShareOf(weight: real, matched: nat, wanted: nat)
    requires matched <= wanted && wanted > 0
    ensures Down(weight) <= TagShare(weight, matched, wanted) <= Up(weight)
  {
    var share := TagShare(weight, matched, wanted);
    Quotient(weight * matched as real, wanted as real);
    if weight >= 0.0 {
      Fraction(weight, matched as real, wanted as real, share);
    } else {
      Negated(weight, matched as real);
      Negated(share, wanted as real);
      Fraction(-weight, matched as real, wanted as real, -share);
    }
  }

  lemma Quotient(x: real, whole: real)
    requires whole > 0.0
    ensures x / whole * whole == x
  {
  }

  lemma Negated(x: real, times: real)
    ensures (-x) * times == -(x * times)
  {
  }

  lemma Fraction(weight: real, part: real, whole: real, share: real)
    requires weight >= 0.0 && 0.0 <= part <= whole && whole > 0.0 && share * whole == weight * part
    ensures 0.0 <= share <= weight
  {
    NoMore(part, whole, weight);
    if share < 0.0 {
      Fusion.Scaled(share, 0.0, whole);
    } else if share > weight {
      Fusion.Scaled(weight, share, whole);
    }
  }

  lemma NoMore(part: real, whole: real, times: real)
    requires 0.0 <= part <= whole && times >= 0.0
    ensures 0.0 <= part * times <= whole * times
  {
  }

  /** What is matched is counted over the wanted tags, each place of the list for itself. */
  lemma {:induction false} MatchedCounts(normal: Bytes -> Bytes, wanted: seq<Bytes>, carried: set<Bytes>)
    ensures Matched(normal, wanted, carried) == |MatchedPlaces(normal, wanted, carried)|
    decreases |wanted|
  {
    if wanted != [] {
      var n := |wanted| - 1;
      MatchedCounts(normal, wanted[..n], carried);
      var before, now := MatchedPlaces(normal, wanted[..n], carried), MatchedPlaces(normal, wanted, carried);
      assert now == before + if normal(wanted[n]) in carried then {n} else {};
    }
  }

  function MatchedPlaces(normal: Bytes -> Bytes, wanted: seq<Bytes>, carried: set<Bytes>): set<nat> {
    set i: nat | i < |wanted| && normal(wanted[i]) in carried
  }

  /**
   * With positive weights, carrying every wanted tag another record carries, and being of
   * a wanted type if that one is, is worth no less; carrying one more is worth strictly more.
   */
  lemma MoreCarriedIsMore(normal: Bytes -> Bytes, f: Filter, w: Weights, more: Meta, fewer: Meta)
    requires OrDefault(w).tag > 0.0 && OrDefault(w).typ > 0.0
    requires var a, b := Carried(normal, more.tags), Carried(normal, fewer.tags);
      MatchedPlaces(normal, f.tags, b) <= MatchedPlaces(normal, f.tags, a)
    requires fewer.typ in f.types ==> more.typ in f.types
    ensures Boost(normal, f, w, more) >= Boost(normal, f, w, fewer)
    ensures var a, b := Carried(normal, more.tags), Carried(normal, fewer.tags);
      Boost(normal, f, w, more) == Boost(normal, f, w, fewer)
      <==> MatchedPlaces(normal, f.tags, a) == MatchedPlaces(normal, f.tags, b) && (fewer.typ in f.types <==> more.typ in f.types)
  {
    var a, b := Carried(normal, more.tags), Carried(normal, fewer.tags);
    MatchedCounts(normal, f.tags, a);
    MatchedCounts(normal, f.tags, b);
    SmallerPart(MatchedPlaces(normal, f.tags, b), MatchedPlaces(normal, f.tags, a));
    if f.tags != [] {
      MoreMatchedIsMore(OrDefault(w).tag, Matched(normal, f.tags, b), Matched(normal, f.tags, a), |f.tags|);
    }
  }

  /** Carrying every wanted tag and being of a wanted type is worth the weights together; neither is worth nothing. */
  lemma AllIsWorthTheWeights(normal: Bytes -> Bytes, f: Filter, w: Weights, meta: Meta)
    requires f.tags != []
    ensures (forall t <- f.tags :: normal(t) in Carried(normal, meta.tags)) && meta.typ in f.types ==>
      Boost(normal, f, w, meta) == if w.tag == w.typ == 0.0 then 0.002 + 0.00067 else w.tag + w.typ
    ensures (forall t <- f.tags :: normal(t) !in Carried(normal, meta.tags)) && meta.typ !in f.types ==>
      Boost(normal, f, w, meta) == 0.0
  {
    AllOrNone(normal, f.tags, Carried(normal, meta.tags));
    ShareEnds(OrDefault(w).tag, |f.tags|);
  }

  lemma ShareEnds(weight: real, wanted: nat)
    requires wanted > 0
    ensures TagShare(weight, 0, wanted) == 0.0 && TagShare(weight, wanted, wanted) == weight
  {
    Undone(weight, wanted as real);
  }

  lemma Undone(x: real, times: real)
    requires times > 0.0
    ensures x * times / times == x && x * 0.0 / times == 0.0
  {
  }

  lemma {:induction false} AllOrNone(normal: Bytes -> Bytes, wanted: seq<Bytes>, carried: set<Bytes>)
    ensures (forall t <- wanted :: normal(t) in carried) ==> Matched(normal, wanted, carried) == |wanted|
    ensures (forall t <- wanted :: normal(t) !in carried) ==> Matched(normal, wanted, carried) == 0
    decreases |wanted|
  {
    if wanted != [] {
      var front, last := wanted[..|wanted| - 1], wanted[|wanted| - 1];
      assert last in wanted && forall t <- front :: t in wanted;
      AllOrNone(normal, front, carried);
    }
  }

  lemma SmallerPart(part: set<nat>, whole: set<nat>)
    requires part <= whole
    ensures |part| <= |whole| && (|part| == |whole| <==> part == whole)
  {
    var rest := whole - part;
    assert whole == part + rest && (rest == {} <==> part == whole);
  }

  lemma MoreMatchedIsMore(weight: real, fewer: nat, more: nat, wanted: nat)
    requires weight > 0.0 && fewer <= more && wanted > 0
    ensures TagShare(weight, fewer, wanted) <= TagShare(weight, more, wanted)
    ensures fewer < more ==> TagShare(weight, fewer, wanted) < TagShare(weight, more, wanted)
  {
    var n := wanted as real;
    var x, y := TagShare(weight, fewer, wanted), TagShare(weight, more, wanted);
    Quotient(weight * fewer as real, n);
    Quotient(weight * more as real, n);
    if fewer < more {
      Fusion.Scaled(fewer as real, more as real, weight);
      assert x * n < y * n;
      if x >= y {
        Fusion.Scaled(y, x, n);
      }
    }
  }

  /** At the weights used unless asked otherwise, the first match stays ahead of one twelve places or more behind it. */
  lemma TwelvePlacesStand(d: nat)
    ensures Share(1.0, 0) - Share(1.0, d) > MostUp(DEFAULT_WEIGHTS) - MostDown(DEFAULT_WEIGHTS) <==> d >= 12
  {
    assert Share(1.0, 0) == 1.0 / 61.0 && Share(1.0, 11) == 1.0 / 72.0 && Share(1.0, 12) == 1.0 / 73.0;
    if d < 11 {
      BetterRankEarnsMore(1.0, d, 11);
    } else if d > 12 {
      BetterRankEarnsMore(1.0, 12, d);
    }
  }

  method CountMatched(normal: Bytes -> Bytes, wanted: seq<Bytes>, carried: set<Bytes>) returns (matched: nat)
    ensures matched == Matched(normal, wanted, carried)
  {
    matched := 0;
    for i := 0 to |wanted|
      invariant matched == Matched(normal, wanted[..i], carried)
    {
      assert wanted[..i + 1][..i] == wanted[..i];
      if normal(wanted[i]) in carried {
        matched := matched + 1;
      }
    }
    assert wanted[..|wanted|] == wanted;
  }

  method Wanted(types: seq<Bytes>, typ: Bytes) returns (found: bool)
    ensures found <==> typ in types
  {
    for i := 0 to |types|
      invariant typ !in types[..i]
    {
      assert types[..i + 1] == types[..i] + [types[i]];
      if types[i] == typ {
        return true;
      }
    }
    assert types[..|types|] == types;
    found := false;
  }

  method BoostOf(normal: Bytes -> Bytes, f: Filter, w: Weights, meta: Meta) returns (total: real)
    ensures total == Boost(normal, f, w, meta)
  {
    if Empty(f) {
      return 0.0;
    }
    total := 0.0;
    if |f.tags| > 0 {
      var matched := CountMatched(normal, f.tags, Carried(normal, meta.tags));
      total := OrDefault(w).tag * matched as real / |f.tags| as real;
    }
    var wanted := Wanted(f.types, meta.typ);
    if wanted {
      total := total + OrDefault(w).typ;
    }
  }

  // ---------- the order ----------

  /** Ids compare byte by byte, as their printed form does. */
  predicate BytesLess(a: Bytes, b: Bytes) {
    b != [] && (a == [] || a[0] < b[0] || (a[0] == b[0] && BytesLess(a[1..], b[1..])))
  }

  lemma {:induction false} BytesLessIsTotal(a: Bytes, b: Bytes)
    ensures a != b ==> BytesLess(a, b) || BytesLess(b, a)
    ensures BytesLess(a, b) ==> !BytesLess(b, a) && a != b
  {
    if a != [] && b != [] {
      BytesLessIsTotal(a[1..], b[1..]);
      assert a == [a[0]] + a[1..] && b == [b[0]] + b[1..];
    }
  }

  lemma {:induction false} BytesLessIsTransitive(a: Bytes, b: Bytes, c: Bytes)
    requires BytesLess(a, b) && BytesLess(b, c)
    ensures BytesLess(a, c)
  {
    if a != [] && a[0] == b[0] && b[0] == c[0] {
      BytesLessIsTransitive(a[1..], b[1..], c[1..]);
    }
  }

  /** The better score first, and on equal scores the lesser id. */
  predicate Before(a: Candidate, b: Candidate) {
    a.score > b.score || (a.score == b.score && BytesLess(a.id.bytes, b.id.bytes))
  }

  lemma BeforeIsTotal(a: Candidate, b: Candidate)
    ensures a.id != b.id ==> Before(a, b) || Before(b, a)
    ensures Before(a, b) ==> !Before(b, a)
  {
    BytesLessIsTotal(a.id.bytes, b.id.bytes);
  }

  lemma BeforeIsTransitive(a: Candidate, b: Candidate, c: Candidate)
    requires Before(a, b) && Before(b, c)
    ensures Before(a, c)
  {
    if a.score == b.score && b.score == c.score {
      BytesLessIsTransitive(a.id.bytes, b.id.bytes, c.id.bytes);
    }
  }

  ghost predicate Ranked(s: seq<Candidate>) { forall i, j :: 0 <= i < j < |s| ==> Before(s[i], s[j]) }

  ghost predicate IdsDiffer(s: seq<Candidate>) { forall i, j :: 0 <= i < j < |s| ==> s[i].id != s[j].id }

  method Insert(sorted: seq<Candidate>, x: Candidate) returns (out: seq<Candidate>)
    requires Ranked(sorted) && forall c <- sorted :: c.id != x.id
    ensures Ranked(out) && multiset(out) == multiset(sorted) + multiset{x}
  {
    var before, after: seq<Candidate> := sorted, [];
    assert before + after == sorted;
    while before != [] && Before(x, before[|before| - 1])
      invariant before + after == sorted && forall c <- after :: Before(x, c)
      decreases |before|
    {
      var last := before[|before| - 1];
      assert before == before[..|before| - 1] + [last];
      before, after := before[..|before| - 1], [last] + after;
      assert before + after == sorted;
    }
    out := before + [x] + after;
    Inserted(before, after, x);
    assert multiset(before + after) == multiset(before) + multiset(after);
  }

  lemma Inserted(before: seq<Candidate>, after: seq<Candidate>, x: Candidate)
    requires Ranked(before + after) && (forall c <- after :: Before(x, c))
    requires forall c <- before + after :: c.id != x.id
    requires before != [] ==> !Before(x, before[|before| - 1])
    ensures Ranked(before + [x] + after)
  {
    var all, out := before + after, before + [x] + after;
    forall i | 0 <= i < |before| ensures Before(before[i], x) {
      var last := before[|before| - 1];
      assert last in all && all[i] == before[i] && all[|before| - 1] == last;
      BeforeIsTotal(last, x);
      if i < |before| - 1 {
        BeforeIsTransitive(before[i], last, x);
      }
    }
    forall i, j | 0 <= i < j < |out| ensures Before(out[i], out[j]) {
      if i != |before| && j != |before| {
        var p, q := if i < |before| then i else i - 1, if j < |before| then j else j - 1;
        assert out[i] == all[p] && out[j] == all[q];
      } else if i == |before| {
        assert out[j] in after;
      }
    }
  }

  method Sort(pool: seq<Candidate>) returns (out: seq<Candidate>)
    requires IdsDiffer(pool)
    ensures Ranked(out) && multiset(out) == multiset(pool)
  {
    out := [];
    for i := 0 to |pool|
      invariant Ranked(out) && multiset(out) == multiset(pool[..i])
    {
      assert pool[..i + 1] == pool[..i] + [pool[i]];
      forall c <- out ensures c.id != pool[i].id {
        assert c in multiset(out);
        var j :| 0 <= j < i && pool[j] == c;
      }
      out := Insert(out, pool[i]);
    }
    assert pool[..|pool|] == pool;
  }

  /** There is one ranking of any pool, so nothing about it depends on the order the pool came in. */
  lemma {:induction false} RankingIsUnique(a: seq<Candidate>, b: seq<Candidate>)
    requires Ranked(a) && Ranked(b) && multiset(a) == multiset(b)
    ensures a == b
  {
    assert |a| == |multiset(a)| == |multiset(b)| == |b|;
    if a != [] {
      FirstIsFirst(a, b);
      assert a == [a[0]] + a[1..] && b == [b[0]] + b[1..];
      assert multiset(a[1..]) == multiset(a) - multiset{a[0]};
      assert multiset(b[1..]) == multiset(b) - multiset{b[0]};
      RankingIsUnique(a[1..], b[1..]);
    }
  }

  lemma FirstIsFirst(a: seq<Candidate>, b: seq<Candidate>)
    requires Ranked(a) && Ranked(b) && multiset(a) == multiset(b) && a != [] && b != []
    ensures a[0] == b[0]
  {
    assert a[0] in multiset(a) && b[0] in multiset(b);
    FirstLeads(a, b[0]);
    FirstLeads(b, a[0]);
    BeforeIsTotal(a[0], b[0]);
  }

  lemma FirstLeads(s: seq<Candidate>, x: Candidate)
    requires Ranked(s) && x in s
    ensures x == s[0] || Before(s[0], x)
  {
  }

  // ---------- ranking ----------

  /** What the catalog says of the pool. */
  datatype Described = Described(superseded: set<Id>, meta: map<Id, Meta>)

  datatype Request = Request(scope: seq<Kind>, filter: Filter, weights: Weights, includeSuperseded: bool)

  predicate InScope(scope: seq<Kind>, known: Described, id: Id) {
    id in known.meta && known.meta[id].kind in scope
  }

  predicate Superseded(known: Described, req: Request, id: Id) {
    !req.includeSuperseded && id in known.superseded
  }

  predicate OutOfScope(known: Described, req: Request, id: Id) {
    !Superseded(known, req, id) && req.scope != [] && !InScope(req.scope, known, id)
  }

  predicate Kept(known: Described, req: Request, id: Id) {
    !Superseded(known, req, id) && !OutOfScope(known, req, id)
  }

  function Boosted(normal: Bytes -> Bytes, known: Described, req: Request, c: Candidate): Candidate {
    if !Empty(req.filter) && c.id in known.meta then
      var boost := Boost(normal, req.filter, OrDefault(req.weights), known.meta[c.id]);
      c.(boost := boost, score := c.score + boost)
    else c
  }

  /** What is ranked of a pool: each kept candidate, moved by the filter. */
  function KeptOf(normal: Bytes -> Bytes, known: Described, req: Request, pool: seq<Candidate>): seq<Candidate> {
    if pool == [] then []
    else
      var c := pool[|pool| - 1];
      KeptOf(normal, known, req, pool[..|pool| - 1])
      + if Kept(known, req, c.id) then [Boosted(normal, known, req, c)] else []
  }

  function SupersededIn(known: Described, req: Request, pool: seq<Candidate>): nat {
    if pool == [] then 0
    else SupersededIn(known, req, pool[..|pool| - 1]) + if Superseded(known, req, pool[|pool| - 1].id) then 1 else 0
  }

  function OutOfScopeIn(known: Described, req: Request, pool: seq<Candidate>): nat {
    if pool == [] then 0
    else OutOfScopeIn(known, req, pool[..|pool| - 1]) + if OutOfScope(known, req, pool[|pool| - 1].id) then 1 else 0
  }

  lemma {:induction false} KeptMembers(normal: Bytes -> Bytes, known: Described, req: Request, pool: seq<Candidate>)
    ensures forall x <- KeptOf(normal, known, req, pool) ::
      exists c <- pool :: Kept(known, req, c.id) && x == Boosted(normal, known, req, c)
    ensures IdsDiffer(pool) ==> IdsDiffer(KeptOf(normal, known, req, pool))
    decreases |pool|
  {
    if pool != [] {
      var front, last := pool[..|pool| - 1], pool[|pool| - 1];
      assert pool == front + [last];
      KeptMembers(normal, known, req, front);
      forall x <- KeptOf(normal, known, req, front)
        ensures exists c <- pool :: Kept(known, req, c.id) && x == Boosted(normal, known, req, c)
        ensures IdsDiffer(pool) ==> x.id != last.id
      {
        var c :| c in front && Kept(known, req, c.id) && x == Boosted(normal, known, req, c);
        assert c in pool;
        var i :| 0 <= i < |front| && front[i] == c;
        assert pool[i] == c;
      }
      assert last in pool;
    }
  }

  /** Kept, superseded and out of scope account for the whole pool. */
  lemma {:induction false} PoolAddsUp(normal: Bytes -> Bytes, known: Described, req: Request, pool: seq<Candidate>)
    ensures |KeptOf(normal, known, req, pool)|
      + SupersededIn(known, req, pool) + OutOfScopeIn(known, req, pool) == |pool|
    decreases |pool|
  {
    if pool != [] {
      PoolAddsUp(normal, known, req, pool[..|pool| - 1]);
    }
  }

  function Cut(s: seq<Candidate>, k: nat): seq<Candidate> { if |s| > k then s[..k] else s }

  /** The best `k` of the pool, with what was held back and why; `all` is the whole ranking they are cut from. */
  method Rank(normal: Bytes -> Bytes, pool: seq<Candidate>, known: Described, req: Request, k: nat)
    returns (out: seq<Candidate>, superseded: nat, outOfScope: nat, ghost all: seq<Candidate>)
    requires IdsDiffer(pool)
    ensures RankingOf(normal, pool, known, req, all) && out == Cut(all, k)
    ensures |all| + superseded + outOfScope == |pool|
    ensures superseded == SupersededIn(known, req, pool)
    ensures outOfScope == OutOfScopeIn(known, req, pool)
  {
    var scored;
    scored, superseded, outOfScope := Score(normal, pool, known, req);
    KeptMembers(normal, known, req, pool);
    PoolAddsUp(normal, known, req, pool);
    var sorted := Sort(scored);
    all := sorted;
    assert |all| == |multiset(all)| == |multiset(scored)| == |scored|;
    out := if |sorted| > k then sorted[..k] else sorted;
  }

  /** Moves each candidate by what the filter gives it, counting those that are held back. */
  method Score(normal: Bytes -> Bytes, pool: seq<Candidate>, known: Described, req: Request)
    returns (scored: seq<Candidate>, superseded: nat, outOfScope: nat)
    ensures scored == KeptOf(normal, known, req, pool)
    ensures superseded == SupersededIn(known, req, pool) && outOfScope == OutOfScopeIn(known, req, pool)
  {
    scored, superseded, outOfScope := [], 0, 0;
    for i := 0 to |pool|
      invariant scored == KeptOf(normal, known, req, pool[..i])
      invariant superseded == SupersededIn(known, req, pool[..i])
      invariant outOfScope == OutOfScopeIn(known, req, pool[..i])
    {
      var entry := pool[i];
      assert pool[..i + 1][..i] == pool[..i];
      if !req.includeSuperseded && entry.id in known.superseded {
        superseded := superseded + 1;
      } else if |req.scope| > 0 && !InScope(req.scope, known, entry.id) {
        outOfScope := outOfScope + 1;
      } else {
        if !Empty(req.filter) && entry.id in known.meta {
          var boost := BoostOf(normal, req.filter, OrDefault(req.weights), known.meta[entry.id]);
          entry := entry.(boost := boost, score := entry.score + boost);
        }
        scored := scored + [entry];
      }
    }
    assert pool[..|pool|] == pool;
  }

  // ---------- what a ranking does not depend on ----------

  /** The whole ranking of a pool under a request: sorted, and exactly the kept candidates. */
  ghost predicate RankingOf(normal: Bytes -> Bytes, pool: seq<Candidate>, known: Described, req: Request,
                            all: seq<Candidate>)
  {
    Ranked(all) && multiset(all) == multiset(KeptOf(normal, known, req, pool))
  }

  lemma {:induction false} KeptAppend(normal: Bytes -> Bytes, known: Described, req: Request,
                                      a: seq<Candidate>, b: seq<Candidate>)
    ensures KeptOf(normal, known, req, a + b) == KeptOf(normal, known, req, a) + KeptOf(normal, known, req, b)
    decreases |b|
  {
    if b == [] {
      assert a + b == a;
    } else {
      assert (a + b)[..|a + b| - 1] == a + b[..|b| - 1];
      KeptAppend(normal, known, req, a, b[..|b| - 1]);
    }
  }

  /** Taking one candidate out of a pool takes what it contributes out of what is ranked, wherever it stood. */
  lemma KeptWithout(normal: Bytes -> Bytes, known: Described, req: Request, a: seq<Candidate>, c: Candidate, b: seq<Candidate>)
    ensures multiset(KeptOf(normal, known, req, a + ([c] + b)))
      == multiset(KeptOf(normal, known, req, a + b)) + multiset(KeptOf(normal, known, req, [c]))
  {
    KeptAppend(normal, known, req, a, [c] + b);
    KeptAppend(normal, known, req, [c], b);
    KeptAppend(normal, known, req, a, b);
  }

  lemma SameRest(c: Candidate, rest: seq<Candidate>, l: seq<Candidate>, r: seq<Candidate>)
    requires multiset([c] + rest) == multiset(l + ([c] + r))
    ensures multiset(rest) == multiset(l + r)
  {
    Cancel(multiset{c}, multiset(rest), multiset(l + r));
  }

  lemma Cancel(one: multiset<Candidate>, a: multiset<Candidate>, b: multiset<Candidate>)
    requires one + a == one + b
    ensures a == b
  {
    forall x ensures a[x] == b[x] {
      assert (one + a)[x] == one[x] + a[x] && (one + b)[x] == one[x] + b[x];
    }
  }

  lemma SplitAt(c: Candidate, b: seq<Candidate>) returns (l: seq<Candidate>, r: seq<Candidate>)
    requires c in b
    ensures b == l + ([c] + r)
  {
    var i :| 0 <= i < |b| && b[i] == c;
    l, r := b[..i], b[i + 1..];
    assert b == b[..i] + ([b[i]] + b[i + 1..]);
  }

  lemma {:induction false} KeptOfSame(normal: Bytes -> Bytes, known: Described, req: Request,
                                      a: seq<Candidate>, b: seq<Candidate>)
    requires multiset(a) == multiset(b)
    ensures multiset(KeptOf(normal, known, req, a)) == multiset(KeptOf(normal, known, req, b))
    decreases |a|
  {
    if a == [] {
      assert |multiset(b)| == 0;
    } else {
      var c, rest := a[0], a[1..];
      assert c in multiset(b) && a == [c] + rest;
      var l, r := SplitAt(c, b);
      SameRest(c, rest, l, r);
      KeptOfSame(normal, known, req, rest, l + r);
      assert [] + ([c] + rest) == a && [] + rest == rest;
      KeptWithout(normal, known, req, [], c, rest);
      KeptWithout(normal, known, req, l, c, r);
    }
  }

  /** The ranking does not depend on the order the pool came in. */
  lemma PoolOrderIsIrrelevant(normal: Bytes -> Bytes, known: Described, req: Request,
                              a: seq<Candidate>, b: seq<Candidate>, ra: seq<Candidate>, rb: seq<Candidate>)
    requires multiset(a) == multiset(b)
    requires RankingOf(normal, a, known, req, ra) && RankingOf(normal, b, known, req, rb)
    ensures ra == rb
  {
    KeptOfSame(normal, known, req, a, b);
    RankingIsUnique(ra, rb);
  }

  /** A shorter answer is the beginning of a longer one, in whatever order the two pools came in. */
  lemma ShorterIsPrefix(normal: Bytes -> Bytes, known: Described, req: Request, a: seq<Candidate>, b: seq<Candidate>,
                        ra: seq<Candidate>, rb: seq<Candidate>, k: nat, n: nat)
    requires multiset(a) == multiset(b) && k <= n
    requires RankingOf(normal, a, known, req, ra) && RankingOf(normal, b, known, req, rb)
    ensures Cut(ra, k) <= Cut(rb, n) && |Cut(ra, k)| == if k < |rb| then k else |rb|
  {
    PoolOrderIsIrrelevant(normal, known, req, a, b, ra, rb);
  }

  /** Asking twice, for few and then for more, over the same records in any order. */
  method RankTwice(normal: Bytes -> Bytes, a: seq<Candidate>, b: seq<Candidate>, known: Described, req: Request,
                   k: nat, n: nat) returns (few: seq<Candidate>, more: seq<Candidate>)
    requires IdsDiffer(a) && IdsDiffer(b) && multiset(a) == multiset(b) && k <= n
    ensures few <= more && |few| <= k && |more| <= n && (|few| < k ==> few == more)
  {
    var superseded, outOfScope;
    ghost var ra, rb;
    few, superseded, outOfScope, ra := Rank(normal, a, known, req, k);
    more, superseded, outOfScope, rb := Rank(normal, b, known, req, n);
    ShorterIsPrefix(normal, known, req, a, b, ra, rb, k, n);
    PoolOrderIsIrrelevant(normal, known, req, a, b, ra, rb);
  }

  /** The filter never changes how many candidates are ranked, nor which. */
  lemma {:induction false} FilterRemovesNothing(normal: Bytes -> Bytes, known: Described, req: Request, f: Filter,
                                                w: Weights, pool: seq<Candidate>)
    ensures var other := req.(filter := f, weights := w);
      var a, b := KeptOf(normal, known, req, pool), KeptOf(normal, known, other, pool);
      |a| == |b| && forall i :: 0 <= i < |a| ==> a[i].id == b[i].id && a[i].fused == b[i].fused
    decreases |pool|
  {
    if pool != [] {
      FilterRemovesNothing(normal, known, req, f, w, pool[..|pool| - 1]);
    }
  }

  /** Whatever the filter, a lead in the fused score wider than the furthest up and down together stands. */
  lemma GapStands(normal: Bytes -> Bytes, pool: seq<Candidate>, known: Described, req: Request,
                  all: seq<Candidate>, i: nat, j: nat)
    requires RankingOf(normal, pool, known, req, all) && i < |all| && j < |all|
    requires forall c <- pool :: c.score == c.fused
    requires all[i].fused - all[j].fused > MostUp(req.weights) - MostDown(req.weights)
    ensures i < j
  {
    KeptMembers(normal, known, req, pool);
    MovedWithin(normal, pool, known, req, all, i);
    MovedWithin(normal, pool, known, req, all, j);
    assert all[i].score > all[j].score;
    BeforeIsTotal(all[i], all[j]);
  }

  /** A ranked candidate's score is its fused score moved up or down by no more than that. */
  lemma MovedWithin(normal: Bytes -> Bytes, pool: seq<Candidate>, known: Described, req: Request,
                    all: seq<Candidate>, i: nat)
    requires RankingOf(normal, pool, known, req, all) && i < |all|
    requires forall c <- pool :: c.score == c.fused
    ensures all[i].fused + MostDown(req.weights) <= all[i].score <= all[i].fused + MostUp(req.weights)
  {
    KeptMembers(normal, known, req, pool);
    assert all[i] in multiset(all);
    assert all[i] in KeptOf(normal, known, req, pool);
    var c :| c in pool && Kept(known, req, c.id) && all[i] == Boosted(normal, known, req, c);
    if !Empty(req.filter) && c.id in known.meta {
      BoostIsBounded(normal, req.filter, OrDefault(req.weights), known.meta[c.id]);
    }
  }

  /** What fusion makes is a pool as ranking expects it: no record twice, and scores not yet moved. */
  lemma FusedIsRankable(matches: seq<MatchHeap.Match>, lexical: seq<Id>, weight: real)
    requires AllDiffer(IdsOf(matches))
    ensures var pool := Pool(matches, lexical, weight); IdsDiffer(pool) && forall c <- pool :: c.score == c.fused
    ensures forall id {:trigger HasId(Pool(matches, lexical, weight), id)} ::
      HasId(Pool(matches, lexical, weight), id) <==> id in IdsOf(matches) || id in lexical
  {
    var pool, ids := Pool(matches, lexical, weight), Union(IdsOf(matches), lexical);
    UnionHoldsAll(IdsOf(matches), lexical);
    forall i, j | 0 <= i < j < |pool| ensures pool[i].id != pool[j].id {
      assert ids[i] != ids[j];
    }
    forall id ensures HasId(pool, id) <==> id in ids {
      if id in ids {
        var i :| 0 <= i < |ids| && ids[i] == id;
        assert pool[i] in pool && pool[i].id == id;
      }
    }
  }

  // ---------- where a record stands for what it earned ----------

  lemma StandsFor(normal: Bytes -> Bytes, matches: seq<MatchHeap.Match>, lexical: seq<Id>, weight: real,
                  known: Described, req: Request, all: seq<Candidate>, i: nat)
    requires RankingOf(normal, Pool(matches, lexical, weight), known, req, all) && i < |all|
    ensures all[i].fused == Deserved(matches, lexical, weight, all[i].id).fused
    ensures all[i].score == all[i].fused + all[i].boost && (Empty(req.filter) ==> all[i].boost == 0.0)
  {
    var pool := Pool(matches, lexical, weight);
    KeptMembers(normal, known, req, pool);
    assert all[i] in multiset(all);
    assert all[i] in KeptOf(normal, known, req, pool);
    var c :| c in pool && Kept(known, req, c.id) && all[i] == Boosted(normal, known, req, c);
  }

  /** A record ahead of another by its ranks, and moved no less by the filter, is ranked before it. */
  lemma AheadRanksFirst(normal: Bytes -> Bytes, matches: seq<MatchHeap.Match>, lexical: seq<Id>, weight: real,
                        known: Described, req: Request, all: seq<Candidate>, i: nat, j: nat)
    requires weight >= 0.0 && RankingOf(normal, Pool(matches, lexical, weight), known, req, all)
    requires i < |all| && j < |all| && Ahead(matches, lexical, weight, all[i].id, all[j].id)
    requires all[i].boost >= all[j].boost
    ensures i < j
  {
    StandsFor(normal, matches, lexical, weight, known, req, all, i);
    StandsFor(normal, matches, lexical, weight, known, req, all, j);
    AheadDeservesMore(matches, lexical, weight, all[i].id, all[j].id);
    assert all[i].score > all[j].score;
    BeforeIsTotal(all[i], all[j]);
  }

  /** Every record stands after those its ranks put it behind. */
  ghost predicate ByRank(matches: seq<MatchHeap.Match>, lexical: seq<Id>, weight: real, all: seq<Candidate>) {
    forall i, j {:trigger Ahead(matches, lexical, weight, all[i].id, all[j].id)} |
      0 <= i < |all| && 0 <= j < |all| && Ahead(matches, lexical, weight, all[i].id, all[j].id) :: i < j
  }

  lemma UnfilteredIsByRank(normal: Bytes -> Bytes, matches: seq<MatchHeap.Match>, lexical: seq<Id>, weight: real,
                           known: Described, req: Request, all: seq<Candidate>)
    requires weight >= 0.0 && RankingOf(normal, Pool(matches, lexical, weight), known, req, all) && Empty(req.filter)
    ensures ByRank(matches, lexical, weight, all)
  {
    forall i, j | 0 <= i < |all| && 0 <= j < |all| && Ahead(matches, lexical, weight, all[i].id, all[j].id) ensures i < j {
      StandsFor(normal, matches, lexical, weight, known, req, all, i);
      StandsFor(normal, matches, lexical, weight, known, req, all, j);
      AheadRanksFirst(normal, matches, lexical, weight, known, req, all, i, j);
    }
  }

  /** The records stand in the order the vector pass returned them. */
  ghost predicate InMatchOrder(matches: seq<MatchHeap.Match>, all: seq<Candidate>) {
    forall i, j :: 0 <= i < j < |all| ==> VectorRank(matches, all[i].id) < VectorRank(matches, all[j].id)
  }

  lemma SilencedIsMatchOrder(matches: seq<MatchHeap.Match>, weight: real, all: seq<Candidate>)
    requires ByRank(matches, [], weight, all) && IdsDiffer(all)
    requires forall c <- all :: c.id in IdsOf(matches)
    ensures InMatchOrder(matches, all)
  {
    forall i, j | 0 <= i < j < |all| ensures VectorRank(matches, all[i].id) < VectorRank(matches, all[j].id) {
      assert all[i] in all && all[j] in all && all[i].id != all[j].id;
      RanksApart(matches, all[i].id, all[j].id);
      assert !Ahead(matches, [], weight, all[j].id, all[i].id);
    }
  }

  lemma RanksApart(matches: seq<MatchHeap.Match>, a: Id, b: Id)
    requires a in IdsOf(matches) && b in IdsOf(matches) && a != b
    ensures VectorRank(matches, a) != VectorRank(matches, b)
  {
    var ids := IdsOf(matches);
    var i :| 0 <= i < |ids| && ids[i] == a;
    assert matches[i].id == a;
    var j :| 0 <= j < |ids| && ids[j] == b;
    assert matches[j].id == b;
  }

  lemma RankedDiffer(all: seq<Candidate>)
    requires Ranked(all)
    ensures forall i, j :: 0 <= i < j < |all| ==> all[i] != all[j]
  {
    forall i, j | 0 <= i < j < |all| ensures all[i] != all[j] {
      BeforeIsTotal(all[i], all[j]);
    }
  }

  /** Among what fusion pooled, no record is ranked twice. */
  lemma RankedIdsDiffer(normal: Bytes -> Bytes, pool: seq<Candidate>, known: Described, req: Request, all: seq<Candidate>)
    requires IdsDiffer(pool) && RankingOf(normal, pool, known, req, all)
    ensures IdsDiffer(all)
  {
    var kept := KeptOf(normal, known, req, pool);
    KeptMembers(normal, known, req, pool);
    RankedDiffer(all);
    forall i, j | 0 <= i < j < |all| ensures all[i].id != all[j].id {
      assert all[i] in multiset(kept) && all[j] in multiset(kept);
      var p, q :| 0 <= p < |kept| && 0 <= q < |kept| && kept[p] == all[i] && kept[q] == all[j];
      assert p != q;
    }
  }

  /** The lexical results that count: none when the pass is asked to have no say. */
  function Heard(lexical: seq<Id>, asked: real): seq<Id> { if LexicalWeight(asked) == 0.0 then [] else lexical }

  /**
   * Fuses the two passes under the weight asked for and ranks the pool. Every record either pass found
   * is ranked or counted as held back, and no other record is ranked. Without a filter every record
   * stands after those its ranks put it behind, and with the lexical pass silenced too the kept
   * matches come back in match order.
   */
  method Recall(normal: Bytes -> Bytes, matches: seq<MatchHeap.Match>, lexical: seq<Id>, asked: real,
                known: Described, req: Request, k: nat)
    returns (out: seq<Candidate>, superseded: nat, outOfScope: nat, ghost all: seq<Candidate>)
    requires AllDiffer(IdsOf(matches))
    ensures RankingOf(normal, Pool(matches, Heard(lexical, asked), LexicalWeight(asked)), known, req, all)
    ensures out == Cut(all, k) && |out| <= k
    ensures |all| + superseded + outOfScope == |Union(IdsOf(matches), Heard(lexical, asked))|
    ensures forall id {:trigger HasId(all, id)} :: HasId(all, id) <==>
      && (id in IdsOf(matches) || id in Heard(lexical, asked))
      && (req.includeSuperseded || id !in known.superseded)
      && (req.scope == [] || (id in known.meta && known.meta[id].kind in req.scope))
    ensures Empty(req.filter) ==> ByRank(matches, Heard(lexical, asked), LexicalWeight(asked), all)
    ensures Empty(req.filter) && asked < 0.0 ==> InMatchOrder(matches, all)
  {
    var weight := LexicalWeight(asked);
    var heard := if weight == 0.0 then [] else lexical;
    var pool := FusedPool(matches, heard, weight);
    out, superseded, outOfScope, all := Rank(normal, pool, known, req, k);
    RankedIds(normal, known, req, pool, all);
    forall c <- all ensures HasId(all, c.id) {
    }
    Unfiltered(normal, matches, heard, weight, known, req, all);
  }

  lemma Unfiltered(normal: Bytes -> Bytes, matches: seq<MatchHeap.Match>, heard: seq<Id>, weight: real,
                   known: Described, req: Request, all: seq<Candidate>)
    requires weight >= 0.0 && AllDiffer(IdsOf(matches))
    requires RankingOf(normal, Pool(matches, heard, weight), known, req, all)
    requires forall c <- all :: c.id in IdsOf(matches) || c.id in heard
    ensures Empty(req.filter) ==> ByRank(matches, heard, weight, all) && (heard == [] ==> InMatchOrder(matches, all))
  {
    if Empty(req.filter) {
      FusedIsRankable(matches, heard, weight);
      UnfilteredIsByRank(normal, matches, heard, weight, known, req, all);
      RankedIdsDiffer(normal, Pool(matches, heard, weight), known, req, all);
      if heard == [] {
        SilencedIsMatchOrder(matches, weight, all);
      }
    }
  }

  method FusedPool(matches: seq<MatchHeap.Match>, lexical: seq<Id>, weight: real) returns (pool: seq<Candidate>)
    requires weight >= 0.0 && AllDiffer(IdsOf(matches))
    ensures pool == Pool(matches, lexical, weight) && IdsDiffer(pool)
    ensures forall id {:trigger HasId(pool, id)} :: HasId(pool, id) <==> id in IdsOf(matches) || id in lexical
  {
    pool := Fuse(matches, lexical, weight);
    FusedIsRankable(matches, lexical, weight);
  }

  ghost predicate HasId(s: seq<Candidate>, id: Id) { exists c <- s :: c.id == id }

  lemma RankedIds(normal: Bytes -> Bytes, known: Described, req: Request, pool: seq<Candidate>, all: seq<Candidate>)
    requires RankingOf(normal, pool, known, req, all)
    ensures forall id {:trigger HasId(all, id)} :: HasId(all, id) <==> HasId(pool, id) && Kept(known, req, id)
  {
    var kept := KeptOf(normal, known, req, pool);
    forall id ensures HasId(all, id) <==> HasId(pool, id) && Kept(known, req, id) {
      SameIds(all, kept, id);
      KeptIds(normal, known, req, pool, id);
    }
  }

  lemma SameIds(a: seq<Candidate>, b: seq<Candidate>, id: Id)
    requires multiset(a) == multiset(b)
    ensures HasId(a, id) <==> HasId(b, id)
  {
    if c :| c in a && c.id == id {
      assert c in multiset(a);
    }
    if c :| c in b && c.id == id {
      assert c in multiset(b);
    }
  }

  lemma {:induction false} KeptIds(normal: Bytes -> Bytes, known: Described, req: Request, pool: seq<Candidate>, id: Id)
    ensures HasId(KeptOf(normal, known, req, pool), id) <==> HasId(pool, id) && Kept(known, req, id)
    decreases |pool|
  {
    if pool != [] {
      var front, last := pool[..|pool| - 1], pool[|pool| - 1];
      assert pool == front + [last];
      KeptIds(normal, known, req, front, id);
      LastHas(front, last, id);
      if Kept(known, req, last.id) {
        LastHas(KeptOf(normal, known, req, front), Boosted(normal, known, req, last), id);
      }
    }
  }

  lemma LastHas(front: seq<Candidate>, last: Candidate, id: Id)
    ensures HasId(front + [last], id) <==> HasId(front, id) || last.id == id
  {
    if c :| c in front && c.id == id {
      assert c in front + [last];
    }
    assert last in front + [last];
  }
}
