/** Session heads: the table they are swapped in, and what a head must agree with. */
module Heads {
  import opened Bytes
  import opened Records
  import opened Conversations
  import opened Transcript

  datatype Head = Head(
    id: Id,
    version: nat,
    chunks: seq<ChunkRef>,
    chunkCount: nat,
    messages: nat,
    bytes: nat,
    headMessage: Bytes,
    links: seq<Id>)

  function EmptyHead(id: Id): Head { Head(id, 1, [], 0, 0, 0, [], []) }

  class HeadTable {
    var heads: map<Id, Head>

    constructor ()
      ensures heads == map[]
    {
      heads := map[];
    }

    /**
     * Writes a head provided the row is still at the version its writer read. A row that is not there is
     * inserted whatever version its writer read.
     */
    method PutSessionHead(head: Head, expected: nat) returns (ok: bool)
      modifies this
      ensures ok <==> head.id !in old(heads) || old(heads)[head.id].version == expected
      ensures heads == if ok then old(heads)[head.id := head] else old(heads)
    {
      if head.id in heads && heads[head.id].version != expected {
        return false;
      }
      heads := heads[head.id := head];
      ok := true;
    }

    method ForgetSessionHead(id: Id)
      modifies this
      ensures heads == old(heads) - {id}
    {
      heads := heads - {id};
    }
  }

  // ---------- a head and its chunks ----------

  function TotalBytes(refs: seq<ChunkRef>): nat {
    if refs == [] then 0 else TotalBytes(refs[..|refs| - 1]) + refs[|refs| - 1].bytes
  }

  /** Ref `i` names chunk `i` of this session and describes it truly. */
  ghost predicate RefOk(c: Codec, session: Id, refs: seq<ChunkRef>, store: Store, i: nat)
    requires i < |refs|
  {
    && refs[i].id in store
    && store[refs[i].id].id == refs[i].id && store[refs[i].id].session == session
    && store[refs[i].id].seqNo == i && store[refs[i].id].messages != []
    && refs[i] == RefOf(c, store[refs[i].id], i)
  }

  ghost predicate RefsOk(c: Codec, session: Id, refs: seq<ChunkRef>, store: Store) {
    forall i {:trigger RefOk(c, session, refs, store, i)} | 0 <= i < |refs| :: RefOk(c, session, refs, store, i)
  }

  lemma RefsAreThere(c: Codec, session: Id, refs: seq<ChunkRef>, store: Store)
    requires RefsOk(c, session, refs, store)
    ensures forall r <- refs :: r.id in store
    ensures Matches(c, refs, store)
  {
    forall i | 0 <= i < |refs|
      ensures refs[i].id in store && store[refs[i].id].messages != []
      ensures refs[i] == RefOf(c, store[refs[i].id], refs[i].seqNo)
    {
      assert RefOk(c, session, refs, store, i);
    }
  }

  /** The messages these chunks make; empty when one of them is missing. */
  ghost function Said(refs: seq<ChunkRef>, store: Store): seq<Message> {
    if forall r <- refs :: r.id in store then TranscriptOf(refs, store) else []
  }

  /** The chunk list is true of the chunks, and the counts agree with it. */
  ghost predicate Consistent(c: Codec, h: Head, store: Store) {
    && RefsOk(c, h.id, h.chunks, store)
    && h.messages == |Said(h.chunks, store)|
    && h.bytes == TotalBytes(h.chunks)
  }

  /** A committed head also carries its chunk count and the last message. */
  ghost predicate Settled(c: Codec, h: Head, store: Store) {
    && Consistent(c, h, store)
    && h.chunkCount == |h.chunks|
    && h.headMessage == LastId(Said(h.chunks, store))
  }

  function LastId(messages: seq<Message>): Bytes {
    if messages == [] then [] else messages[|messages| - 1].id
  }

  // ---------- appending ----------

  /** The head after one more chunk is written. */
  function WithChunk(c: Codec, h: Head, chunk: Chunk): Head {
    var ref := RefOf(c, chunk, chunk.seqNo);
    h.(chunks := h.chunks + [ref], messages := h.messages + ref.n, bytes := h.bytes + ref.bytes)
  }

  /** What the head's own fields become once the chunks of a save are written. */
  function Updated(h: Head, messages: seq<Message>): Head {
    h.(headMessage := if messages == [] then h.headMessage else messages[|messages| - 1].id,
       chunkCount := |h.chunks|)
  }

  lemma StoreGrows(c: Codec, session: Id, refs: seq<ChunkRef>, store: Store, chunk: Chunk)
    requires RefsOk(c, session, refs, store) && chunk.id !in store
    ensures RefsOk(c, session, refs, store[chunk.id := chunk])
    ensures Said(refs, store[chunk.id := chunk]) == Said(refs, store)
  {
    var grown := store[chunk.id := chunk];
    forall i | 0 <= i < |refs| ensures RefOk(c, session, refs, grown, i) {
      assert RefOk(c, session, refs, store, i);
    }
    RefsAreThere(c, session, refs, store);
    RefsAreThere(c, session, refs, grown);
    assert GroupsOf(refs, grown) == GroupsOf(refs, store);
  }

  lemma SaidNext(refs: seq<ChunkRef>, store: Store, r: ChunkRef)
    requires (forall x <- refs :: x.id in store) && r.id in store
    ensures Said(refs + [r], store) == Said(refs, store) + store[r.id].messages
  {
    var groups := GroupsOf(refs, store);
    assert forall x <- refs + [r] :: x.id in store;
    assert GroupsOf(refs + [r], store) == groups + [store[r.id].messages];
    FlattenOne(groups, store[r.id].messages);
  }

  /** Writing a chunk adds its messages to the end of the transcript and changes none before. */
  lemma ChunkAppends(c: Codec, h: Head, store: Store, chunk: Chunk)
    requires Consistent(c, h, store) && chunk.id !in store
    requires chunk.session == h.id && chunk.seqNo == |h.chunks| && chunk.messages != []
    ensures var after, grown := WithChunk(c, h, chunk), store[chunk.id := chunk];
      Consistent(c, after, grown) && Said(after.chunks, grown) == Said(h.chunks, store) + chunk.messages
  {
    var ref := RefOf(c, chunk, chunk.seqNo);
    var refs, grown := h.chunks + [ref], store[chunk.id := chunk];
    StoreGrows(c, h.id, h.chunks, store, chunk);
    forall i | 0 <= i < |refs| ensures RefOk(c, h.id, refs, grown, i) {
      if i < |h.chunks| {
        assert RefOk(c, h.id, h.chunks, grown, i);
      }
    }
    RefsAreThere(c, h.id, h.chunks, grown);
    SaidNext(h.chunks, grown, ref);
    assert refs[..|refs| - 1] == h.chunks;
  }

  lemma GrownStays(c: Codec, h: Head, store: Store, chunk: Chunk)
    requires chunk.id !in store
    ensures Consistent(c, h, store) ==> Consistent(c, h, store[chunk.id := chunk])
    ensures Settled(c, h, store) ==> Settled(c, h, store[chunk.id := chunk])
    ensures Consistent(c, h, store) ==> Said(h.chunks, store[chunk.id := chunk]) == Said(h.chunks, store)
  {
    if Consistent(c, h, store) {
      StoreGrows(c, h.id, h.chunks, store, chunk);
    }
  }
}
