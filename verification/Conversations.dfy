/** A conversation: messages in immutable chunks, and the head that names the chunks in order. */
module Conversations {
  import opened Bytes
  import opened Records

  datatype Message = Message(id: Bytes, content: Bytes)

  datatype Chunk = Chunk(id: Id, session: Id, seqNo: nat, messages: seq<Message>)

  /** A head's one line on a chunk; `RefOf` derives all of it from the chunk. */
  datatype ChunkRef = ChunkRef(id: Id, seqNo: nat, first: Bytes, last: Bytes, n: nat, bytes: nat, cid: Bytes)

  /** How a chunk is encoded and addressed, and how a message is measured. */
  datatype Codec = Codec(marshal: Chunk -> Bytes, cid: Bytes -> Bytes, measure: Message -> nat)

  function RefOf(c: Codec, chunk: Chunk, position: nat): ChunkRef {
    var m := chunk.messages;
    ChunkRef(chunk.id, position,
             if m == [] then [] else m[0].id,
             if m == [] then [] else m[|m| - 1].id,
             |m|, |c.marshal(chunk)|, c.cid(c.marshal(chunk)))
  }

  // ---------- flattening ----------

  function Flatten<T>(groups: seq<seq<T>>): seq<T> {
    if groups == [] then [] else groups[0] + Flatten(groups[1..])
  }

  lemma {:induction false} FlattenAppend<T>(a: seq<seq<T>>, b: seq<seq<T>>)
    ensures Flatten(a + b) == Flatten(a) + Flatten(b)
  {
    if a == [] {
      assert a + b == b;
    } else {
      assert (a + b)[1..] == a[1..] + b;
      FlattenAppend(a[1..], b);
    }
  }

  lemma FlattenOne<T>(a: seq<seq<T>>, g: seq<T>)
    ensures Flatten(a + [g]) == Flatten(a) + g
  {
    FlattenAppend(a, [g]);
    assert [g][1..] == [] && Flatten([g]) == g;
  }

  /** Group `i` stands in the flattened sequence right after everything in the groups before it. */
  lemma GroupStands<T>(groups: seq<seq<T>>, i: nat)
    requires i < |groups|
    ensures var base, all := |Flatten(groups[..i])|, Flatten(groups);
      base + |groups[i]| <= |all| && all[base..base + |groups[i]|] == groups[i]
  {
    var rest := groups[i + 1..];
    assert groups == groups[..i] + ([groups[i]] + rest);
    FlattenAppend(groups[..i], [groups[i]] + rest);
    assert ([groups[i]] + rest)[1..] == rest;
  }

  lemma GroupAt<T>(groups: seq<seq<T>>, i: nat, base: nat)
    requires i < |groups| && base == |Flatten(groups[..i])|
    ensures base + |groups[i]| <= |Flatten(groups)|
    ensures forall j :: 0 <= j < |groups[i]| ==> Flatten(groups)[base + j] == groups[i][j]
  {
    GroupStands(groups, i);
    SliceIs(Flatten(groups), base, groups[i]);
  }

  lemma SliceIs<T>(all: seq<T>, base: nat, m: seq<T>)
    requires base + |m| <= |all| && all[base..base + |m|] == m
    ensures forall j :: 0 <= j < |m| ==> all[base + j] == m[j]
  {
    forall j | 0 <= j < |m| ensures all[base + j] == m[j] {
      assert all[base..base + |m|][j] == all[base + j];
    }
  }

  lemma {:induction false} FlattenPrefix<T>(groups: seq<seq<T>>, i: nat)
    requires i <= |groups|
    ensures |Flatten(groups[..i])| <= |Flatten(groups)|
    ensures Flatten(groups)[..|Flatten(groups[..i])|] == Flatten(groups[..i])
  {
    assert groups == groups[..i] + groups[i..];
    FlattenAppend(groups[..i], groups[i..]);
  }

  lemma FlattenNext<T>(groups: seq<seq<T>>, i: nat)
    requires i < |groups|
    ensures Flatten(groups[..i + 1]) == Flatten(groups[..i]) + groups[i]
  {
    assert groups[..i + 1] == groups[..i] + [groups[i]];
    FlattenOne(groups[..i], groups[i]);
  }
}
