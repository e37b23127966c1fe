/** Bytes and the fixed-width integers the on-disk formats are built from. */
module Bytes {

  newtype byte = x: int | 0 <= x < 256

  type Bytes = seq<byte>

  /** The number of values `k` bytes can hold. */
  function Pow256(k: nat): (p: nat)
    ensures p > 0
  {
    if k == 0 then 1 else 256 * Pow256(k - 1)
  }

  /** `k` bytes, least significant first; high bits of `x` that do not fit are dropped, as in Go. */
  function ToLE(x: nat, k: nat): (b: Bytes)
    ensures |b| == k
  {
    if k == 0 then [] else [(x % 256) as byte] + ToLE(x / 256, k - 1)
  }

  function FromLE(b: Bytes): (x: nat)
    ensures x < Pow256(|b|)
  {
    if b == [] then 0 else b[0] as nat + 256 * FromLE(b[1..])
  }

  /** `k` bytes, most significant first. */
  function ToBE(x: nat, k: nat): (b: Bytes)
    ensures |b| == k
  {
    if k == 0 then [] else ToBE(x / 256, k - 1) + [(x % 256) as byte]
  }

  function FromBE(b: Bytes): (x: nat)
    ensures x < Pow256(|b|)
  {
    if b == [] then 0 else 256 * FromBE(b[..|b| - 1]) + b[|b| - 1] as nat
  }

  /** Writing and reading back keeps exactly the low `k` bytes. */
  lemma {:induction false} LERoundTrip(x: nat, k: nat)
    ensures FromLE(ToLE(x, k)) == x % Pow256(k)
  {
    if k > 0 {
      LERoundTrip(x / 256, k - 1);
      assert ToLE(x, k)[1..] == ToLE(x / 256, k - 1);
      ModSplit(x, Pow256(k - 1));
    }
  }

  lemma {:induction false} BERoundTrip(x: nat, k: nat)
    ensures FromBE(ToBE(x, k)) == x % Pow256(k)
  {
    if k > 0 {
      BERoundTrip(x / 256, k - 1);
      assert ToBE(x, k)[..k - 1] == ToBE(x / 256, k - 1);
      ModSplit(x, Pow256(k - 1));
    }
  }

  lemma ModSplit(x: nat, p: nat)
    requires p > 0
    ensures x % (256 * p) == x % 256 + 256 * ((x / 256) % p)
  {
    var y := x / 256;
    var q, r := y / p, y % p;
    assert y == q * p + r;
    assert x == 256 * y + x % 256;
    var low := x % 256 + 256 * r;
    assert x == q * (256 * p) + low;
    assert 0 <= low < 256 * p;
    ModUnique(x, 256 * p, q, low);
  }

  lemma ModUnique(x: int, m: int, q: int, r: int)
    requires m > 0 && 0 <= r < m && x == q * m + r
    ensures x % m == r
  {
    var d := x / m - q;
    assert d * m == r - x % m by {
      assert x == (x / m) * m + x % m;
      assert d * m == (x / m) * m - q * m;
    }
    MulBound(d, m);
  }

  lemma MulBound(d: int, m: int)
    requires m > 0
    ensures d >= 1 ==> d * m >= m
    ensures d <= -1 ==> d * m <= -m
  {
  }

  lemma Pow256Values()
    ensures Pow256(2) == 0x1_0000
    ensures Pow256(4) == 0x1_0000_0000
    ensures Pow256(8) == 0x1_0000_0000_0000_0000
  {
    assert Pow256(1) == 256;
    assert Pow256(3) == 256 * Pow256(2);
    assert Pow256(5) == 256 * Pow256(4);
    assert Pow256(6) == 256 * Pow256(5);
    assert Pow256(7) == 256 * Pow256(6);
  }

  // ---------- files made of pieces written one after another ----------

  function Concat(pieces: seq<Bytes>): Bytes {
    if pieces == [] then [] else pieces[0] + Concat(pieces[1..])
  }

  /** How many pieces lie wholly before byte `cut`. */
  function WholeBefore(pieces: seq<Bytes>, cut: nat): (n: nat)
    ensures n <= |pieces|
  {
    if pieces == [] || cut < |pieces[0]| then 0
    else 1 + WholeBefore(pieces[1..], cut - |pieces[0]|)
  }

  /** Where the first `n` pieces end. */
  function Boundary(pieces: seq<Bytes>, n: nat): nat
    requires n <= |pieces|
  {
    if n == 0 then 0 else |pieces[0]| + Boundary(pieces[1..], n - 1)
  }

  lemma {:induction false} WholeFile(pieces: seq<Bytes>)
    ensures WholeBefore(pieces, |Concat(pieces)|) == |pieces|
    ensures Boundary(pieces, |pieces|) == |Concat(pieces)|
  {
    if pieces != [] { WholeFile(pieces[1..]); }
  }

  lemma {:induction false} ConcatAppend(pieces: seq<Bytes>, last: Bytes)
    ensures Concat(pieces + [last]) == Concat(pieces) + last
  {
    if pieces == [] {
      assert pieces + [last] == [last];
      assert Concat([last]) == last + Concat([]);
    } else {
      ConcatAppend(pieces[1..], last);
      assert (pieces + [last])[1..] == pieces[1..] + [last];
    }
  }

  // ---------- walking such a file forward, one item at a time ----------

  datatype Parsed<+T> = Damaged | Item(item: T, rest: Bytes)

  /** What a walk recovered, and whether it ended cleanly rather than at damage. */
  datatype Walk<T> = Walk(items: seq<T>, intact: bool)

  /** Parses items until none are left or one is damaged; an item has to consume something. */
  function WalkWith<T>(step: Bytes -> Parsed<T>, blob: Bytes): (w: Walk<T>)
    decreases |blob|
  {
    if blob == [] then Walk([], true)
    else match step(blob)
      case Damaged => Walk([], false)
      case Item(item, rest) =>
        if |rest| >= |blob| then Walk([], false)
        else
          var w := WalkWith(step, rest);
          Walk([item] + w.items, w.intact)
  }

  /** Each piece parses to its item whatever follows it, and no proper prefix of a piece parses. */
  ghost predicate ParsesTo<T>(step: Bytes -> Parsed<T>, pieces: seq<Bytes>, items: seq<T>) {
    && |pieces| == |items|
    && (forall i, rest :: 0 <= i < |pieces| ==> step(pieces[i] + rest) == Item(items[i], rest))
    && (forall i, k :: 0 <= i < |pieces| && 0 <= k < |pieces[i]| ==> step(pieces[i][..k]) == Damaged)
    && (forall i :: 0 <= i < |pieces| ==> pieces[i] != [])
  }

  lemma ParsesToTail<T>(step: Bytes -> Parsed<T>, pieces: seq<Bytes>, items: seq<T>)
    requires ParsesTo(step, pieces, items) && pieces != []
    ensures ParsesTo(step, pieces[1..], items[1..])
  {
    forall i, rest | 0 <= i < |pieces[1..]|
      ensures step(pieces[1..][i] + rest) == Item(items[1..][i], rest)
    {
      assert pieces[1..][i] == pieces[i + 1];
    }
    forall i, k | 0 <= i < |pieces[1..]| && 0 <= k < |pieces[1..][i]|
      ensures step(pieces[1..][i][..k]) == Damaged
    {
      assert pieces[1..][i] == pieces[i + 1];
    }
  }

  /**
   * A file cut at any byte yields exactly the items lying wholly before the cut, and the walk
   * reports damage unless the cut fell between two items.
   */
  lemma {:induction false} TruncatedWalk<T>(step: Bytes -> Parsed<T>, pieces: seq<Bytes>, items: seq<T>, cut: nat)
    requires ParsesTo(step, pieces, items) && cut <= |Concat(pieces)|
    ensures var n := WholeBefore(pieces, cut);
      WalkWith(step, Concat(pieces)[..cut]) == Walk(items[..n], cut == Boundary(pieces, n))
  {
    if pieces == [] {
      return;
    }
    var size := |pieces[0]|;
    var tail := Concat(pieces[1..]);
    if cut < size {
      assert (pieces[0] + tail)[..cut] == pieces[0][..cut];
    } else {
      ParsesToTail(step, pieces, items);
      TruncatedWalk(step, pieces[1..], items[1..], cut - size);
      assert (pieces[0] + tail)[..cut] == pieces[0] + tail[..cut - size];
      FirstRead(step, pieces, items, tail[..cut - size]);
      var n := WholeBefore(pieces[1..], cut - size);
      assert [items[0]] + items[1..][..n] == items[..n + 1];
    }
  }

  /** A walk takes the first item off and goes on. */
  lemma FirstRead<T>(step: Bytes -> Parsed<T>, pieces: seq<Bytes>, items: seq<T>, rest: Bytes)
    requires ParsesTo(step, pieces, items) && pieces != []
    ensures WalkWith(step, pieces[0] + rest)
      == var w := WalkWith(step, rest); Walk([items[0]] + w.items, w.intact)
  {
    var blob := pieces[0] + rest;
    assert step(blob) == Item(items[0], rest);
    assert |blob| > |rest|;
  }

  /** A step looks no further than the item it takes. */
  ghost predicate Stable<T(!new)>(step: Bytes -> Parsed<T>) {
    forall x, y {:trigger step(x + y)} :: step(x).Item? ==> step(x + y) == Item(step(x).item, step(x).rest + y)
  }

  /** What follows a blob that walked cleanly is walked after it. */
  lemma {:induction false} WalkOn<T(!new)>(step: Bytes -> Parsed<T>, a: Bytes, b: Bytes)
    requires Stable(step) && WalkWith(step, a).intact
    ensures var w := WalkWith(step, b);
      WalkWith(step, a + b) == Walk(WalkWith(step, a).items + w.items, w.intact)
    decreases |a|
  {
    var w := WalkWith(step, b);
    if a == [] {
      assert a + b == b;
      assert [] + w.items == w.items;
    } else {
      var item, rest := step(a).item, step(a).rest;
      WalkOn(step, rest, b);
      assert step(a + b) == Item(item, rest + b);
      assert [item] + (WalkWith(step, rest).items + w.items) == ([item] + WalkWith(step, rest).items) + w.items;
    }
  }

  /** Walking an undamaged file returns exactly the items written to it. */
  lemma WholeWalk<T>(step: Bytes -> Parsed<T>, pieces: seq<Bytes>, items: seq<T>)
    requires ParsesTo(step, pieces, items)
    ensures WalkWith(step, Concat(pieces)) == Walk(items, true)
  {
    var cut := |Concat(pieces)|;
    TruncatedWalk(step, pieces, items, cut);
    WholeFile(pieces);
    assert Concat(pieces)[..cut] == Concat(pieces);
    assert items[..|items|] == items;
  }
}
