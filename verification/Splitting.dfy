/** Cutting messages into groups, each filled as far as its target size allows. */
module Splitting {
  import opened Conversations

  const CHUNK_TARGET_BYTES: nat := 262144

  function Target(target: int): (t: nat)
    ensures t > 0
  {
    if target <= 0 then CHUNK_TARGET_BYTES else target
  }

  function Size(measure: Message -> nat, group: seq<Message>): nat {
    if group == [] then 0 else Size(measure, group[..|group| - 1]) + measure(group[|group| - 1])
  }

  predicate Fits(measure: Message -> nat, target: nat, g: seq<Message>) {
    g != [] && (Size(measure, g) <= target || |g| == 1)
  }

  /** Group `i` could not have taken the message the next group begins with. */
  predicate Full(measure: Message -> nat, target: nat, groups: seq<seq<Message>>, i: nat)
    requires i + 1 < |groups|
  {
    groups[i + 1] != [] && Size(measure, groups[i]) + measure(groups[i + 1][0]) > target
  }

  /**
   * The groups a split promises: the messages in order, none of the groups empty, each within the
   * target or a single message, and none closed while its next message would still have fitted.
   */
  ghost predicate Greedy(measure: Message -> nat, messages: seq<Message>, target: nat, groups: seq<seq<Message>>) {
    && Flatten(groups) == messages
    && (forall g <- groups :: Fits(measure, target, g))
    && (forall i {:trigger Full(measure, target, groups, i)} | 0 <= i < |groups| - 1 :: Full(measure, target, groups, i))
  }

  /** The groups closed so far and the one being filled. */
  ghost predicate Filling(measure: Message -> nat, messages: seq<Message>, target: nat,
                          out: seq<seq<Message>>, group: seq<Message>)
  {
    && (group == [] ==> out == [])
    && Greedy(measure, messages, target, if group == [] then out else out + [group])
  }

  lemma Started(measure: Message -> nat, target: nat, m: Message)
    ensures Filling(measure, [m], target, [], [m])
  {
    FlattenOne<Message>([], [m]);
    assert [] + [[m]] == [[m]];
  }

  lemma Extended(measure: Message -> nat, messages: seq<Message>, target: nat,
                 out: seq<seq<Message>>, group: seq<Message>, m: Message)
    requires Filling(measure, messages, target, out, group)
    requires group != [] && Size(measure, group) + measure(m) <= target
    ensures Filling(measure, messages + [m], target, out, group + [m])
  {
    var before, after := out + [group], out + [group + [m]];
    assert (group + [m])[..|group|] == group;
    FlattenOne(out, group + [m]);
    FlattenOne(out, group);
    forall g <- after ensures Fits(measure, target, g) {
      assert g in out ==> g in before;
    }
    forall i | 0 <= i < |after| - 1 ensures Full(measure, target, after, i) {
      assert Full(measure, target, before, i);
      assert before[i] == after[i] && before[i + 1][0] == after[i + 1][0];
    }
  }

  lemma Closed(measure: Message -> nat, messages: seq<Message>, target: nat,
               out: seq<seq<Message>>, group: seq<Message>, m: Message)
    requires Filling(measure, messages, target, out, group)
    requires group != [] && Size(measure, group) + measure(m) > target
    ensures Filling(measure, messages + [m], target, out + [group], [m])
  {
    var before, after := out + [group], out + [group] + [[m]];
    FlattenOne(before, [m]);
    forall i | 0 <= i < |after| - 1 ensures Full(measure, target, after, i) {
      if i < |before| - 1 {
        assert Full(measure, target, before, i);
        assert before[i] == after[i] && before[i + 1] == after[i + 1];
      }
    }
  }

  lemma SizeOfMore(measure: Message -> nat, group: seq<Message>, m: Message)
    ensures Size(measure, group + [m]) == Size(measure, group) + measure(m)
  {
    assert (group + [m])[..|group|] == group;
  }

  method SplitMessages(measure: Message -> nat, messages: seq<Message>, target: int) returns (out: seq<seq<Message>>)
    ensures Greedy(measure, messages, Target(target), out)
  {
    var limit := Target(target);
    var group: seq<Message>, groupBytes := [], 0;
    out := [];
    for i := 0 to |messages|
      invariant Filling(measure, messages[..i], limit, out, group) && groupBytes == Size(measure, group)
    {
      var m := messages[i];
      assert messages[..i + 1] == messages[..i] + [m];
      SizeOfMore(measure, group, m);
      SizeOfMore(measure, [], m);
      assert [] + [m] == [m];
      if |group| > 0 && groupBytes + measure(m) > limit {
        Closed(measure, messages[..i], limit, out, group, m);
        out, group, groupBytes := out + [group], [], 0;
      } else if |group| > 0 {
        Extended(measure, messages[..i], limit, out, group, m);
      } else {
        Started(measure, limit, m);
      }
      group, groupBytes := group + [m], groupBytes + measure(m);
    }
    assert messages[..|messages|] == messages;
    if |group| > 0 {
      out := out + [group];
    }
  }

  // ---------- what is promised leaves one answer only ----------

  lemma {:induction false} SizePrefix(measure: Message -> nat, g: seq<Message>, n: nat)
    requires n < |g|
    ensures Size(measure, g[..n]) + measure(g[n]) <= Size(measure, g)
    decreases |g|
  {
    if n < |g| - 1 {
      SizePrefix(measure, g[..|g| - 1], n);
      assert g[..|g| - 1][..n] == g[..n];
    }
  }

  lemma {:induction false} FitsBefore(measure: Message -> nat, target: nat, g: seq<Message>)
    requires Fits(measure, target, g)
    ensures forall n :: 1 <= n < |g| ==> Size(measure, g[..n]) + measure(g[n]) <= target
  {
    forall n | 1 <= n < |g| ensures Size(measure, g[..n]) + measure(g[n]) <= target {
      SizePrefix(measure, g, n);
    }
  }

  lemma GreedyTail(measure: Message -> nat, messages: seq<Message>, target: nat, groups: seq<seq<Message>>)
    requires groups != [] && Greedy(measure, messages, target, groups)
    ensures groups[0] <= messages && Fits(measure, target, groups[0])
    ensures Greedy(measure, messages[|groups[0]|..], target, groups[1..])
    ensures |groups[0]| < |messages| ==>
      Size(measure, groups[0]) + measure(messages[|groups[0]|]) > target
  {
    var tail := groups[1..];
    assert messages == groups[0] + Flatten(tail);
    if |groups[0]| < |messages| {
      assert tail != [] && tail[0] == groups[1];
      assert Full(measure, target, groups, 0);
      assert messages[|groups[0]|] == Flatten(tail)[0];
    }
    forall i | 0 <= i < |tail| - 1 ensures Full(measure, target, tail, i) {
      assert Full(measure, target, groups, i + 1);
    }
  }

  /** The first group of a split is no longer than that of any other. */
  lemma FirstGroup(measure: Message -> nat, messages: seq<Message>, target: nat, a: seq<Message>, b: seq<Message>)
    requires a <= messages && b <= messages && Fits(measure, target, a) && Fits(measure, target, b)
    requires |b| < |messages| ==> Size(measure, b) + measure(messages[|b|]) > target
    ensures |a| <= |b|
  {
    FitsBefore(measure, target, a);
    var n := if |b| < |a| then |b| else |a|;
    assert a[..n] == messages[..n] == b[..n] && b[..|b|] == b;
  }

  lemma NoGroups(measure: Message -> nat, messages: seq<Message>, target: nat, groups: seq<seq<Message>>)
    requires Greedy(measure, messages, target, groups)
    ensures groups == [] <==> messages == []
  {
    assert groups != [] ==> Fits(measure, target, groups[0]);
  }

  /** There is only one split of any messages: what is promised is exactly what the code returns. */
  lemma {:induction false} GreedyIsUnique(measure: Message -> nat, messages: seq<Message>, target: nat,
                                          a: seq<seq<Message>>, b: seq<seq<Message>>)
    requires Greedy(measure, messages, target, a) && Greedy(measure, messages, target, b)
    ensures a == b
    decreases |a|
  {
    NoGroups(measure, messages, target, a);
    NoGroups(measure, messages, target, b);
    if messages != [] {
      GreedyTail(measure, messages, target, a);
      GreedyTail(measure, messages, target, b);
      FirstGroup(measure, messages, target, a[0], b[0]);
      FirstGroup(measure, messages, target, b[0], a[0]);
      GreedyIsUnique(measure, messages[|a[0]|..], target, a[1..], b[1..]);
      assert a == [a[0]] + a[1..] && b == [b[0]] + b[1..];
    }
  }
}
