/** The bounded min-heap a vector search ranks with: a binary heap over a slice, sifted in place. */
module MatchHeap {
  import opened Records

  datatype Match = Match(id: Id, score: real)

  function Parent(i: nat): nat
    requires i > 0
  {
    (i - 1) / 2
  }

  /** The order holds between every element of `h[..n]` and its parent. */
  ghost predicate Ordered(h: seq<Match>, n: nat)
    requires n <= |h|
  {
    forall i {:trigger h[i]} :: 1 <= i < n ==> h[Parent(i)].score <= h[i].score
  }

  /** The order holds except between `j` and its parent, and `j`'s children are above that parent. */
  ghost predicate OrderedBut(h: seq<Match>, j: nat)
    requires j < |h|
  {
    && (forall i {:trigger h[i]} :: 1 <= i < |h| && i != j ==> h[Parent(i)].score <= h[i].score)
    && (forall i {:trigger h[i]} :: 1 <= i < |h| && j > 0 && Parent(i) == j ==> h[Parent(j)].score <= h[i].score)
  }

  /** The order holds in `h[..n]` except between `j` and its children, which are above `j`'s parent. */
  ghost predicate OrderedAbove(h: seq<Match>, j: nat, n: nat)
    requires j < n <= |h|
  {
    && (forall i {:trigger h[i]} :: 1 <= i < n && Parent(i) != j ==> h[Parent(i)].score <= h[i].score)
    && (forall i {:trigger h[i]} :: 1 <= i < n && j > 0 && Parent(i) == j ==> h[Parent(j)].score <= h[i].score)
  }

  lemma {:induction false} RootIsLeast(h: seq<Match>, n: nat, i: nat)
    requires i < n <= |h| && Ordered(h, n)
    ensures h[0].score <= h[i].score
    decreases i
  {
    if i > 0 {
      assert h[Parent(i)].score <= h[i].score;
      RootIsLeast(h, n, Parent(i));
    }
  }

  function Swapped(h: seq<Match>, i: nat, j: nat): (s: seq<Match>)
    requires i < |h| && j < |h|
    ensures |s| == |h|
  {
    h[i := h[j]][j := h[i]]
  }

  lemma SwapKeeps(h: seq<Match>, i: nat, j: nat)
    requires i < |h| && j < |h|
    ensures multiset(Swapped(h, i, j)) == multiset(h)
  {
  }

  lemma SwapKeepsPrefix(h: seq<Match>, i: nat, j: nat, n: nat)
    requires i < n && j < n && n <= |h|
    ensures multiset(Swapped(h, i, j)[..n]) == multiset(h[..n])
    ensures Swapped(h, i, j)[n..] == h[n..]
  {
    assert Swapped(h, i, j)[..n] == Swapped(h[..n], i, j);
    SwapKeeps(h[..n], i, j);
  }

  /** Swapping an element that is below its parent's order upwards moves the exception one level up. */
  lemma UpStep(h: seq<Match>, j: nat)
    requires 0 < j < |h| && OrderedBut(h, j) && h[j].score < h[Parent(j)].score
    ensures OrderedBut(Swapped(h, Parent(j), j), Parent(j))
  {
    var p := Parent(j);
    var s := Swapped(h, p, j);
    forall i | 1 <= i < |s| && i != p ensures s[Parent(i)].score <= s[i].score {
      if i != j { assert h[Parent(i)].score <= h[i].score; }
    }
    if p > 0 {
      assert h[Parent(p)].score <= h[p].score;
      forall i | 1 <= i < |s| && Parent(i) == p ensures s[Parent(p)].score <= s[i].score {
        if i != j { assert h[p].score <= h[i].score; }
      }
    }
  }

  /** Swapping an element down with its lesser child moves the exception one level down. */
  lemma DownStep(h: seq<Match>, i: nat, j: nat, n: nat)
    requires i < j < n <= |h| && Parent(j) == i && OrderedAbove(h, i, n)
    requires h[j].score < h[i].score
    requires forall c {:trigger h[c]} :: 1 <= c < n && Parent(c) == i ==> h[j].score <= h[c].score
    ensures OrderedAbove(Swapped(h, i, j), j, n)
  {
    var s := Swapped(h, i, j);
    forall c | 1 <= c < n && Parent(c) != j ensures s[Parent(c)].score <= s[c].score {
      if Parent(c) == i {
        assert h[j].score <= h[c].score;
      } else if c == i {
        assert h[Parent(i)].score <= h[j].score;
      } else {
        assert h[Parent(c)].score <= h[c].score;
      }
    }
    forall c | 1 <= c < n && Parent(c) == j ensures s[i].score <= s[c].score {
      assert h[j].score <= h[c].score;
    }
  }

  lemma LesserChild(h: seq<Match>, i: nat, j: nat, n: nat)
    requires 2 * i + 1 < n <= |h| && 2 * i + 1 <= j <= 2 * i + 2 && j < n
    requires h[j].score <= h[2 * i + 1].score
    requires 2 * i + 2 < n ==> h[j].score <= h[2 * i + 2].score
    ensures forall c {:trigger h[c]} :: 1 <= c < n && Parent(c) == i ==> h[j].score <= h[c].score
  {
    forall c | 1 <= c < n && Parent(c) == i ensures h[j].score <= h[c].score {
      assert c == 2 * i + 1 || c == 2 * i + 2;
    }
  }

  method LesserChildOf(h: seq<Match>, i: nat, n: nat) returns (j: nat)
    requires 2 * i + 1 < n <= |h|
    ensures i < j < n && Parent(j) == i
    ensures forall c {:trigger h[c]} :: 1 <= c < n && Parent(c) == i ==> h[j].score <= h[c].score
  {
    j := 2 * i + 1;
    if j + 1 < n && h[j + 1].score < h[j].score {
      j := j + 1;
    }
    LesserChild(h, i, j, n);
  }

  /** The first `n` elements have been rearranged and the rest left alone. */
  ghost predicate Sifted(before: seq<Match>, after: seq<Match>, n: nat) {
    && n <= |before| == |after| && after[n..] == before[n..]
    && multiset(after[..n]) == multiset(before[..n])
  }

  lemma SwapSifts(before: seq<Match>, h: seq<Match>, i: nat, j: nat, n: nat)
    requires Sifted(before, h, n) && i < n && j < n
    ensures Sifted(before, Swapped(h, i, j), n)
  {
    SwapKeepsPrefix(h, i, j, n);
  }

  lemma Settled(h: seq<Match>, i: nat, n: nat)
    requires i < n <= |h| && OrderedAbove(h, i, n)
    requires forall c {:trigger h[c]} :: 1 <= c < n && Parent(c) == i ==> h[i].score <= h[c].score
    ensures Ordered(h, n)
  {
  }

  class Heap {
    var h: seq<Match>

    constructor ()
      ensures h == []
    {
      h := [];
    }

    ghost predicate Valid()
      reads this
    {
      Ordered(h, |h|)
    }

    /** Sifts the element at `j0` towards the root. */
    method Up(j0: nat)
      requires j0 < |h| && OrderedBut(h, j0)
      modifies this
      ensures Valid() && multiset(h) == old(multiset(h)) && |h| == old(|h|)
    {
      var j := j0;
      while j > 0 && h[j].score < h[Parent(j)].score
        invariant 0 <= j < |h| == old(|h|)
        invariant OrderedBut(h, j) && multiset(h) == old(multiset(h))
      {
        UpStep(h, j);
        SwapKeeps(h, Parent(j), j);
        h := Swapped(h, Parent(j), j);
        j := Parent(j);
      }
    }

    /** Sifts the element at the root of `h[..n]` away from it. */
    method Down(n: nat)
      requires 0 < n <= |h| && OrderedAbove(h, 0, n)
      modifies this
      ensures |h| == old(|h|) && Ordered(h, n) && h[n..] == old(h[n..])
      ensures multiset(h[..n]) == old(multiset(h[..n]))
    {
      var i := 0;
      while 2 * i + 1 < n
        invariant 0 <= i < n <= |h| && OrderedAbove(h, i, n) && Sifted(old(h), h, n)
        decreases n - i
      {
        var j := LesserChildOf(h, i, n);
        if h[j].score >= h[i].score {
          Settled(h, i, n);
          return;
        }
        DownStep(h, i, j, n);
        SwapSifts(old(h), h, i, j, n);
        h := Swapped(h, i, j);
        i := j;
      }
      Settled(h, i, n);
    }

    method Push(x: Match)
      requires Valid()
      modifies this
      ensures Valid() && multiset(h) == old(multiset(h)) + multiset{x} && |h| == old(|h|) + 1
    {
      h := h + [x];
      Up(|h| - 1);
    }

    /** Replaces the least element. */
    method ReplaceLeast(x: Match)
      requires Valid() && |h| > 0
      modifies this
      ensures Valid() && |h| == old(|h|)
      ensures multiset(h) == old(multiset(h)) - multiset{old(h[0])} + multiset{x}
    {
      h := h[0 := x];
      ghost var replaced := h;
      Down(|h|);
      assert h[..|h|] == h && replaced[..|h|] == replaced;
    }

    method Pop() returns (least: Match)
      requires Valid() && |h| > 0
      modifies this
      ensures Valid() && least == old(h[0]) && |h| == old(|h|) - 1
      ensures old(multiset(h)) == multiset(h) + multiset{least}
    {
      var n := |h| - 1;
      SwappedOut(h, n);
      HoleAtRoot(h, n);
      h := Swapped(h, 0, n);
      if n > 0 {
        Down(n);
      }
      assert h[n] == h[n..][0];
      PrefixOrdered(h, n);
      least := h[n];
      h := h[..n];
    }
  }

  lemma SwappedOut(h: seq<Match>, n: nat)
    requires n + 1 == |h|
    ensures var s := Swapped(h, 0, n); s[n..] == [h[0]] && multiset(h) == multiset(s[..n]) + multiset{h[0]}
  {
    SwapKeeps(h, 0, n);
    SplitLast(Swapped(h, 0, n));
  }

  /** The root swapped to the end leaves a prefix that is ordered except at its own root. */
  lemma HoleAtRoot(h: seq<Match>, n: nat)
    requires n + 1 == |h| && Ordered(h, |h|)
    ensures n > 0 ==> OrderedAbove(Swapped(h, 0, n), 0, n)
    ensures n == 0 ==> Ordered(Swapped(h, 0, n), n)
  {
    var s := Swapped(h, 0, n);
    forall i | 1 <= i < n && Parent(i) != 0 ensures s[Parent(i)].score <= s[i].score {
      assert h[Parent(i)].score <= h[i].score;
    }
  }

  lemma PrefixOrdered(h: seq<Match>, n: nat)
    requires n <= |h| && Ordered(h, n)
    ensures Ordered(h[..n], n)
  {
  }

  lemma SplitLast(h: seq<Match>)
    requires h != []
    ensures multiset(h) == multiset(h[..|h| - 1]) + multiset{h[|h| - 1]}
  {
    assert h == h[..|h| - 1] + [h[|h| - 1]];
  }
}
