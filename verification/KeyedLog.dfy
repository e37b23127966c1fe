/**
 * The shape the catalog and the vector index share on disk: entries replayed in order, a later
 * entry for a key replacing the earlier one where it stands.
 */
module KeyedLog {
  import opened Records

  /** The position of the entry held for `k`, or the length when there is none. */
  function IndexOf<K(==), T>(key: T -> K, out: seq<T>, k: K): (i: nat)
    ensures i <= |out|
    ensures i < |out| ==> key(out[i]) == k
    ensures forall j :: 0 <= j < i ==> key(out[j]) != k
  {
    if out == [] || key(out[0]) == k then 0 else 1 + IndexOf(key, out[1..], k)
  }

  function Upsert<K(==), T>(key: T -> K, out: seq<T>, e: T): seq<T> {
    var i := IndexOf(key, out, key(e));
    if i < |out| then out[i := e] else out + [e]
  }

  /** The entries current after `log` is replayed over `out`, in the order their keys first appeared. */
  function Replay<K(==), T>(key: T -> K, out: seq<T>, log: seq<T>): seq<T>
    decreases log
  {
    if log == [] then out else Replay(key, Upsert(key, out, log[0]), log[1..])
  }

  function Find<K(==), T>(key: T -> K, out: seq<T>, k: K): Option<T> {
    var i := IndexOf(key, out, k);
    if i < |out| then Some(out[i]) else None
  }

  /** The last entry a log holds for a key. */
  function Last<K(==), T>(key: T -> K, log: seq<T>, k: K): Option<T>
    decreases |log|
  {
    if log == [] then None
    else if key(log[|log| - 1]) == k then Some(log[|log| - 1])
    else Last(key, log[..|log| - 1], k)
  }

  ghost predicate Distinct<K, T>(key: T -> K, out: seq<T>) {
    forall i, j :: 0 <= i < j < |out| ==> key(out[i]) != key(out[j])
  }

  lemma FindAt<K, T>(key: T -> K, out: seq<T>, i: nat)
    requires Distinct(key, out) && i < |out|
    ensures IndexOf(key, out, key(out[i])) == i
  {
    var j := IndexOf(key, out, key(out[i]));
    assert j <= i;
  }

  lemma UpsertDistinct<K, T>(key: T -> K, out: seq<T>, e: T)
    requires Distinct(key, out)
    ensures Distinct(key, Upsert(key, out, e))
  {
  }

  lemma {:induction false} ReplayDistinct<K, T>(key: T -> K, out: seq<T>, log: seq<T>)
    requires Distinct(key, out)
    ensures Distinct(key, Replay(key, out, log))
    decreases log
  {
    if log != [] {
      UpsertDistinct(key, out, log[0]);
      ReplayDistinct(key, Upsert(key, out, log[0]), log[1..]);
    }
  }

  lemma {:induction false} ReplayAppend<K, T>(key: T -> K, out: seq<T>, log: seq<T>, more: seq<T>)
    ensures Replay(key, out, log + more) == Replay(key, Replay(key, out, log), more)
    decreases log
  {
    if log == [] {
      assert log + more == more;
    } else {
      assert (log + more)[1..] == log[1..] + more;
      ReplayAppend(key, Upsert(key, out, log[0]), log[1..], more);
    }
  }

  lemma ReplayOne<K, T>(key: T -> K, out: seq<T>, log: seq<T>, e: T)
    ensures Replay(key, out, log + [e]) == Upsert(key, Replay(key, out, log), e)
  {
    ReplayAppend(key, out, log, [e]);
    assert [e][1..] == [];
  }

  lemma ReplayNext<K, T>(key: T -> K, out: seq<T>, log: seq<T>, i: nat)
    requires i < |log|
    ensures Replay(key, out, log[..i + 1]) == Upsert(key, Replay(key, out, log[..i]), log[i])
  {
    assert log[..i + 1] == log[..i] + [log[i]];
    ReplayOne(key, out, log[..i], log[i]);
  }

  /** Putting back an entry that is held already changes nothing. */
  lemma UpsertHeld<K, T>(key: T -> K, out: seq<T>, e: T)
    requires Find(key, out, key(e)) == Some(e)
    ensures Upsert(key, out, e) == out
  {
  }

  lemma UpsertFind<K, T>(key: T -> K, out: seq<T>, e: T, k: K)
    ensures Find(key, Upsert(key, out, e), k) == if k == key(e) then Some(e) else Find(key, out, k)
  {
    var after := Upsert(key, out, e);
    var i, j := IndexOf(key, out, k), IndexOf(key, after, k);
    var at := IndexOf(key, out, key(e));
    if k == key(e) {
      assert key(after[at]) == k;
      assert j <= at;
      assert forall n :: 0 <= n < at ==> after[n] == out[n];
    } else {
      if i < |out| { assert after[i] == out[i]; assert j <= i; }
      if j < |after| {
        assert key(after[j]) == k;
        assert j != at && j < |out| && after[j] == out[j];
        assert i <= j;
      }
    }
  }

  /** The last writer wins, and a key the log never names keeps what it had. */
  lemma {:induction false} ReplayFind<K, T>(key: T -> K, out: seq<T>, log: seq<T>, k: K)
    ensures Find(key, Replay(key, out, log), k)
      == if Last(key, log, k).Some? then Last(key, log, k) else Find(key, out, k)
    decreases log
  {
    if log != [] {
      var n := |log| - 1;
      assert log[..n] + [log[n]] == log;
      ReplayOne(key, out, log[..n], log[n]);
      ReplayFind(key, out, log[..n], k);
      UpsertFind(key, Replay(key, out, log[..n]), log[n], k);
    }
  }

  /** Replaying never moves or drops a key that is already there. */
  lemma {:induction false} ReplayKeepsKeys<K, T>(key: T -> K, out: seq<T>, log: seq<T>)
    ensures |out| <= |Replay(key, out, log)|
    ensures forall i :: 0 <= i < |out| ==> key(Replay(key, out, log)[i]) == key(out[i])
    decreases log
  {
    if log != [] {
      ReplayKeepsKeys(key, Upsert(key, out, log[0]), log[1..]);
    }
  }

  /** Every key in the result came from one of the two inputs. */
  lemma {:induction false} ReplayNewKeys<K, T>(key: T -> K, out: seq<T>, log: seq<T>)
    requires forall e <- log :: IndexOf(key, out, key(e)) < |out|
    ensures |Replay(key, out, log)| == |out|
    decreases log
  {
    if log != [] {
      var next := Upsert(key, out, log[0]);
      forall e <- log[1..]
        ensures IndexOf(key, next, key(e)) < |next|
      {
        assert e in log;
        var i := IndexOf(key, out, key(e));
        assert key(next[i]) == key(e);
      }
      ReplayNewKeys(key, next, log[1..]);
    }
  }

  /** Two replays that agree on the keys at each position and on every key's entry are the same. */
  lemma SameByKeys<K, T>(key: T -> K, a: seq<T>, b: seq<T>)
    requires |a| == |b| && Distinct(key, a) && Distinct(key, b)
    requires forall i :: 0 <= i < |a| ==> key(a[i]) == key(b[i])
    requires forall i :: 0 <= i < |a| ==> Find(key, a, key(a[i])) == Find(key, b, key(a[i]))
    ensures a == b
  {
    forall i | 0 <= i < |a| ensures a[i] == b[i] {
      FindAt(key, a, i);
      FindAt(key, b, i);
    }
  }

  lemma LastIsFound<K, T>(key: T -> K, out: seq<T>, log: seq<T>, e: T)
    requires e in log
    ensures Last(key, log, key(e)).Some?
    decreases |log|
  {
    var n := |log| - 1;
    if key(log[n]) != key(e) {
      assert log[..n] + [log[n]] == log;
      assert e in log[..n];
      LastIsFound(key, out, log[..n], e);
    }
  }

  /** Replaying a log a second time over its own result changes nothing. */
  lemma ReplayTwice<K, T>(key: T -> K, out: seq<T>, log: seq<T>)
    requires Distinct(key, out)
    ensures var r := Replay(key, out, log); Replay(key, r, log) == r
  {
    var r := Replay(key, out, log);
    var again := Replay(key, r, log);
    ReplayDistinct(key, out, log);
    ReplayDistinct(key, r, log);
    ReplayKeepsKeys(key, r, log);
    forall e <- log ensures IndexOf(key, r, key(e)) < |r| {
      LastIsFound(key, out, log, e);
      ReplayFind(key, out, log, key(e));
    }
    ReplayNewKeys(key, r, log);
    forall i | 0 <= i < |r| ensures Find(key, again, key(again[i])) == Find(key, r, key(again[i])) {
      ReplayFind(key, out, log, key(again[i]));
      ReplayFind(key, r, log, key(again[i]));
    }
    SameByKeys(key, again, r);
  }

  /** A sequence of entries with distinct keys replays to itself. */
  lemma {:induction false} ReplayDistinctIsIdentity<K, T>(key: T -> K, out: seq<T>, es: seq<T>)
    requires Distinct(key, out + es)
    ensures Replay(key, out, es) == out + es
    decreases es
  {
    if es == [] {
      assert out + es == out;
    } else {
      assert (out + es)[|out|] == es[0];
      assert forall i :: 0 <= i < |out| ==> (out + es)[i] == out[i];
      assert (out + [es[0]]) + es[1..] == out + es;
      ReplayDistinctIsIdentity(key, out + [es[0]], es[1..]);
    }
  }

  // ---------- sizes ----------

  function Sum<T>(size: T -> nat, es: seq<T>): nat {
    if es == [] then 0 else size(es[0]) + Sum(size, es[1..])
  }

  lemma {:induction false} SumAppend<T>(size: T -> nat, a: seq<T>, b: seq<T>)
    ensures Sum(size, a + b) == Sum(size, a) + Sum(size, b)
  {
    if a == [] {
      assert a + b == b;
    } else {
      assert (a + b)[1..] == a[1..] + b;
      SumAppend(size, a[1..], b);
    }
  }

  lemma SumUpdate<T>(size: T -> nat, a: seq<T>, i: nat, e: T)
    requires i < |a|
    ensures Sum(size, a[i := e]) <= Sum(size, a) + size(e)
  {
    assert a == a[..i] + ([a[i]] + a[i + 1..]);
    assert a[i := e] == a[..i] + ([e] + a[i + 1..]);
    SumAppend(size, a[..i], [a[i]] + a[i + 1..]);
    SumAppend(size, a[..i], [e] + a[i + 1..]);
    assert ([a[i]] + a[i + 1..])[1..] == ([e] + a[i + 1..])[1..];
  }

  lemma UpsertSum<K, T>(key: T -> K, size: T -> nat, out: seq<T>, e: T)
    ensures Sum(size, Upsert(key, out, e)) <= Sum(size, out) + size(e)
  {
    var i := IndexOf(key, out, key(e));
    if i < |out| {
      SumUpdate(size, out, i, e);
    } else {
      SumAppend(size, out, [e]);
      assert [e][1..] == [];
    }
  }

  /** Folding a log in never makes the result larger than what was folded. */
  lemma {:induction false} ReplaySum<K, T>(key: T -> K, size: T -> nat, out: seq<T>, log: seq<T>)
    ensures Sum(size, Replay(key, out, log)) <= Sum(size, out) + Sum(size, log)
    decreases log
  {
    if log != [] {
      UpsertSum(key, size, out, log[0]);
      ReplaySum(key, size, Upsert(key, out, log[0]), log[1..]);
    }
  }
}
