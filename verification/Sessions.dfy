/** Saving a conversation on one device: chunks written first, then the head swapped in. */
module Sessions {
  import opened Bytes
  import opened Records
  import opened Conversations
  import opened Splitting
  import opened Transcript
  import opened Heads

  datatype SaveResult = Saved(version: nat) | NoSession | Resent | Stale

  /** The message ids at the ends of the chunks a head names. */
  function Boundaries(refs: seq<ChunkRef>): set<Bytes> {
    (set r <- refs :: r.first) + (set r <- refs :: r.last) - {[]}
  }

  /** A batch repeats no id of its own and none the head knows at a chunk boundary. */
  ghost predicate Fresh(refs: seq<ChunkRef>, messages: seq<Message>) {
    && (forall i, j :: 0 <= i < j < |messages| ==> messages[i].id != messages[j].id)
    && (forall m <- messages :: m.id !in Boundaries(refs))
  }

  method ValidateAppend(refs: seq<ChunkRef>, messages: seq<Message>) returns (ok: bool)
    ensures ok <==> Fresh(refs, messages)
  {
    var seen := Boundaries(refs);
    for i := 0 to |messages|
      invariant seen == Boundaries(refs) + set m <- messages[..i] :: m.id
      invariant Fresh(refs, messages[..i])
    {
      assert messages[..i + 1] == messages[..i] + [messages[i]];
      if messages[i].id in seen {
        if messages[i].id in Boundaries(refs) {
          assert messages[i] in messages;
        } else {
          var m :| m in messages[..i] && m.id == messages[i].id;
          var j :| 0 <= j < i && messages[j] == m;
        }
        return false;
      }
      seen := seen + {messages[i].id};
    }
    assert messages[..|messages|] == messages;
    ok := true;
  }

  class Device {
    const c: Codec
    const table: HeadTable
    var chunks: Store

    ghost predicate Valid()
      reads this, table
    {
      HeadsOk(c, table.heads, chunks)
    }

    constructor (c: Codec)
      ensures Valid() && this.c == c && table.heads == map[] && chunks == map[] && fresh(table)
    {
      this.c, chunks := c, map[];
      table := new HeadTable();
    }

    method WriteChunk(session: Head, id: Id, messages: seq<Message>) returns (after: Head)
      requires Valid() && id !in chunks && messages != [] && Consistent(c, session, chunks)
      modifies this`chunks
      ensures Valid() && chunks.Keys == old(chunks).Keys + {id}
      ensures Consistent(c, after, chunks) && session.chunks <= after.chunks
      ensures |after.chunks| == |session.chunks| + 1 && after.chunks[|session.chunks|].id == id
      ensures chunks[id].messages == messages
      ensures after == session.(chunks := after.chunks, messages := after.messages, bytes := after.bytes)
      ensures Said(after.chunks, chunks) == Said(session.chunks, old(chunks)) + messages
      ensures Grown(old(chunks), chunks)
    {
      var chunk := Chunk.Chunk(id, session.id, |session.chunks|, messages);
      ChunkAppends(c, session, chunks, chunk);
      forall h | h in table.heads
        ensures HeadOk(c, table.heads, chunks[id := chunk], h)
      {
        assert HeadOk(c, table.heads, chunks, h);
        GrownStays(c, table.heads[h], chunks, chunk);
      }
      after := WithChunk(c, session, chunk);
      chunks := chunks[id := chunk];
    }

    /** Writes one chunk for each group; `ids` are fresh record ids. */
    method WriteChunks(session: Head, groups: seq<seq<Message>>, ids: seq<Id>) returns (after: Head)
      requires Valid() && Consistent(c, session, chunks) && (forall g <- groups :: g != [])
      requires |ids| >= |groups| && Unused(ids, 0, chunks)
      modifies this`chunks
      ensures Valid() && Extends(c, session, after, Said(session.chunks, old(chunks)), groups, chunks)
      ensures Grown(old(chunks), chunks)
    {
      ghost var base := Said(session.chunks, chunks);
      after := session;
      assert groups[..0] == [] && base + [] == base;
      for i := 0 to |groups|
        invariant Valid() && Extends(c, session, after, base, groups[..i], chunks)
        invariant Grown(old(chunks), chunks) && Unused(ids, i, chunks)
      {
        assert groups[i] in groups;
        after := WriteNext(session, after, base, ids, i, groups);
      }
      assert groups[..|groups|] == groups;
    }

    /** Writes one more chunk after those of `was`. */
    method WriteNext(ghost was: Head, session: Head, ghost said: seq<Message>, ids: seq<Id>, i: nat,
                     groups: seq<seq<Message>>) returns (after: Head)
      requires Valid() && i < |groups| && groups[i] != [] && Extends(c, was, session, said, groups[..i], chunks)
      requires i < |ids| && Unused(ids, i, chunks)
      modifies this`chunks
      ensures Valid() && Extends(c, was, after, said, groups[..i + 1], chunks)
      ensures Grown(old(chunks), chunks) && Unused(ids, i + 1, chunks)
    {
      ghost var before := chunks;
      after := WriteChunk(session, ids[i], groups[i]);
      ExtendsBy(c, was, session, after, said, groups, i, before, chunks);
    }

    /**
     * Saves messages to a new session or to one this device has. A save adds one version, extends the chunk
     * list by one chunk for each group of messages, and makes the transcript exactly what it was followed by
     * these messages; the head's links, and all else of it, stay. Every other outcome changes nothing.
     */
    method SaveSession(existing: bool, id: Id, messages: seq<Message>, ids: seq<Id>) returns (r: SaveResult)
      requires Valid() && (!existing ==> id !in table.heads)
      requires |ids| >= |messages| && Unused(ids, 0, chunks)
      modifies this`chunks, table
      ensures Valid() && r != Stale
      ensures r == NoSession <==> existing && id !in old(table.heads)
      ensures r == Resent <==>
        (r != NoSession && !Fresh(if existing then old(table.heads)[id].chunks else [], messages))
      ensures !r.Saved? ==> table.heads == old(table.heads) && chunks == old(chunks)
      ensures Grown(old(chunks), chunks)
      ensures r.Saved? ==>
        var was := if existing then old(table.heads)[id] else EmptyHead(id);
        && id in table.heads && table.heads - {id} == old(table.heads) - {id}
        && table.heads[id].version == r.version == (if existing then was.version + 1 else 1)
        && SavedOver(c, was, table.heads[id], messages, chunks)
        && Said(table.heads[id].chunks, chunks) == Said(was.chunks, old(chunks)) + messages
    {
      if existing && id !in table.heads {
        return NoSession;
      }
      var from := if existing then table.heads[id].version else 0;
      var session := if existing then table.heads[id].(version := from + 1) else EmptyHead(id);
      assert existing ==> HeadOk(c, table.heads, chunks, id);
      var valid := ValidateAppend(session.chunks, messages);
      if !valid {
        return Resent;
      }
      r := Store(session, from, messages, ids);
    }

    method Store(session: Head, from: nat, messages: seq<Message>, ids: seq<Id>) returns (r: SaveResult)
      requires Valid() && Consistent(c, session, chunks) && session.headMessage == LastId(Said(session.chunks, chunks))
      requires session.id in table.heads ==> table.heads[session.id].version == from
      requires |ids| >= |messages| && Unused(ids, 0, chunks)
      modifies this`chunks, table
      ensures Valid() && r == Saved(session.version) && Grown(old(chunks), chunks)
      ensures session.id in table.heads && table.heads - {session.id} == old(table.heads) - {session.id}
      ensures table.heads[session.id].version == session.version
      ensures SavedOver(c, session, table.heads[session.id], messages, chunks)
      ensures Said(table.heads[session.id].chunks, chunks) == Said(session.chunks, old(chunks)) + messages
    {
      var groups := SplitMessages(c.measure, messages, CHUNK_TARGET_BYTES);
      FilledGroups(c.measure, messages, groups);
      var written := WriteChunks(session, groups, ids);
      var head := Updated(written, messages);
      ghost var before := table.heads;
      SavedSettles(c, written, Said(session.chunks, old(chunks)), messages, chunks);
      var ok := table.PutSessionHead(head, from);
      OneMoreHead(c, before, chunks, head);
      r := if ok then Saved(head.version) else Stale;
    }

    /** Drops this device's copy of a session's head; its chunks stay. */
    method ForgetSessionHead(id: Id)
      requires Valid()
      modifies table
      ensures Valid() && table.heads == old(table.heads) - {id}
    {
      ghost var before := table.heads;
      table.ForgetSessionHead(id);
      forall other | other in table.heads ensures HeadOk(c, table.heads, chunks, other) {
        assert HeadOk(c, before, chunks, other);
      }
    }

    /** Adds a memory to the head's links; nothing else of the head changes but its version. */
    method LinkMemory(id: Id, memory: Id) returns (r: SaveResult)
      requires Valid()
      modifies table
      ensures Valid() && (r == NoSession <==> id !in old(table.heads)) && r != Resent && r != Stale
      ensures r == NoSession ==> table.heads == old(table.heads)
      ensures r.Saved? ==>
        var was := old(table.heads)[id];
        table.heads == if memory in was.links then old(table.heads)
                       else old(table.heads)[id := was.(version := was.version + 1, links := was.links + [memory])]
    {
      if id !in table.heads {
        return NoSession;
      }
      var session := table.heads[id];
      assert HeadOk(c, table.heads, chunks, id);
      if memory in session.links {
        return Saved(session.version);
      }
      ghost var before := table.heads;
      var head := session.(version := session.version + 1, links := session.links + [memory]);
      var ok := table.PutSessionHead(head, session.version);
      OneMoreHead(c, before, chunks, head);
      r := if ok then Saved(head.version) else Stale;
    }
  }

  ghost predicate HeadOk(c: Codec, heads: map<Id, Head>, chunks: Store, id: Id) {
    id in heads && heads[id].id == id && Settled(c, heads[id], chunks)
  }

  ghost predicate HeadsOk(c: Codec, heads: map<Id, Head>, chunks: Store) {
    forall id {:trigger HeadOk(c, heads, chunks, id)} | id in heads :: HeadOk(c, heads, chunks, id)
  }

  lemma OneMoreHead(c: Codec, heads: map<Id, Head>, chunks: Store, head: Head)
    requires HeadsOk(c, heads, chunks) && Settled(c, head, chunks)
    ensures HeadsOk(c, heads[head.id := head], chunks)
  {
    var after := heads[head.id := head];
    forall id | id in after ensures HeadOk(c, after, chunks, id) {
      assert id != head.id ==> HeadOk(c, heads, chunks, id);
    }
  }

  lemma SavedSettles(c: Codec, written: Head, base: seq<Message>, messages: seq<Message>, chunks: Store)
    requires Consistent(c, written, chunks) && Said(written.chunks, chunks) == base + messages
    requires written.headMessage == LastId(base)
    ensures Settled(c, Updated(written, messages), chunks)
  {
    assert base + [] == base;
  }

  /** The head is `was` with one chunk added for each group, true of them, and says these too. */
  ghost predicate Extends(c: Codec, was: Head, h: Head, said: seq<Message>, groups: seq<seq<Message>>, chunks: Store) {
    && Consistent(c, h, chunks) && was.chunks <= h.chunks
    && h == was.(chunks := h.chunks, messages := h.messages, bytes := h.bytes)
    && Said(h.chunks, chunks) == said + Flatten(groups)
    && Holds(h.chunks[|was.chunks|..], chunks, groups)
  }

  /** Each ref names a chunk of exactly its group. */
  ghost predicate Holds(refs: seq<ChunkRef>, chunks: Store, groups: seq<seq<Message>>) {
    && |refs| == |groups|
    && forall i {:trigger refs[i]} | 0 <= i < |refs| :: refs[i].id in chunks && chunks[refs[i].id].messages == groups[i]
  }

  /** The head after a save: the one it opened with these chunks added, a version on, and nothing else of it changed. */
  ghost predicate SavedOver(c: Codec, was: Head, h: Head, messages: seq<Message>, chunks: Store) {
    && h == was.(version := h.version, chunks := h.chunks, messages := h.messages, bytes := h.bytes,
                 chunkCount := h.chunkCount, headMessage := h.headMessage)
    && was.chunks <= h.chunks
    && exists groups :: Greedy(c.measure, messages, CHUNK_TARGET_BYTES, groups) && Holds(h.chunks[|was.chunks|..], chunks, groups)
  }

  lemma ExtendsBy(c: Codec, was: Head, session: Head, after: Head, said: seq<Message>, groups: seq<seq<Message>>,
                  i: nat, before: Store, chunks: Store)
    requires i < |groups| && Extends(c, was, session, said, groups[..i], before) && Grown(before, chunks)
    requires Consistent(c, after, chunks) && |after.chunks| == |session.chunks| + 1 && session.chunks <= after.chunks
    requires after == session.(chunks := after.chunks, messages := after.messages, bytes := after.bytes)
    requires var last := after.chunks[|session.chunks|]; last.id in chunks && chunks[last.id].messages == groups[i]
    requires Said(after.chunks, chunks) == Said(session.chunks, before) + groups[i]
    ensures Extends(c, was, after, said, groups[..i + 1], chunks)
  {
    Continue(said, groups, i);
    var n := |was.chunks|;
    forall k | 0 <= k < i + 1
      ensures after.chunks[n..][k].id in chunks && chunks[after.chunks[n..][k].id].messages == groups[k]
    {
      if k < i {
        assert session.chunks[n..][k] == after.chunks[n..][k];
      } else {
        assert |session.chunks[n..]| == |groups[..i]|;
      }
    }
  }

  /** No chunk already written changes. */
  ghost predicate Grown(before: Store, after: Store) {
    forall id <- before :: id in after && after[id] == before[id]
  }

  /** The ids from `i` on are distinct and name no chunk yet. */
  ghost predicate Unused(ids: seq<Id>, i: nat, chunks: Store) {
    && (forall j :: i <= j < |ids| ==> ids[j] !in chunks)
    && (forall j, k :: i <= j < k < |ids| ==> ids[j] != ids[k])
  }

  lemma Continue(base: seq<Message>, groups: seq<seq<Message>>, i: nat)
    requires i < |groups|
    ensures (base + Flatten(groups[..i])) + groups[i] == base + Flatten(groups[..i + 1])
  {
    FlattenNext(groups, i);
  }

  lemma {:induction false} FilledGroups(measure: Message -> nat, messages: seq<Message>, groups: seq<seq<Message>>)
    requires Greedy(measure, messages, CHUNK_TARGET_BYTES, groups)
    ensures (forall g <- groups :: g != []) && |groups| <= |messages|
  {
    forall g <- groups ensures g != [] {
      assert Fits(measure, CHUNK_TARGET_BYTES, g);
    }
    NotMoreGroups(groups);
  }

  lemma {:induction false} NotMoreGroups(groups: seq<seq<Message>>)
    requires forall g <- groups :: g != []
    ensures |groups| <= |Flatten(groups)|
  {
    if groups != [] {
      assert groups[0] in groups && forall g <- groups[1..] :: g in groups;
      NotMoreGroups(groups[1..]);
    }
  }

  // ---------- a repeated id the append check lets through ----------

  function Plain(id: Bytes): Message { Message(id, []) }

  /** The ref names a chunk of exactly these messages and says of it what is so. */
  ghost predicate Names(c: Codec, r: ChunkRef, chunks: Store, m: seq<Message>) {
    && r.id in chunks && chunks[r.id].messages == m && m != []
    && r == RefOf(c, chunks[r.id], r.seqNo)
  }

  lemma ThreeChunks(c: Codec, session: Id, ids: seq<Id>, m0: seq<Message>, m1: seq<Message>, m2: seq<Message>)
    returns (refs: seq<ChunkRef>, chunks: Store)
    requires |ids| == 3 && ids[0] != ids[1] && ids[0] != ids[2] && ids[1] != ids[2]
    requires m0 != [] && m1 != [] && m2 != []
    ensures |refs| == 3 && Matches(c, refs, chunks) && TranscriptOf(refs, chunks) == m0 + m1 + m2
    ensures Names(c, refs[0], chunks, m0) && Names(c, refs[1], chunks, m1) && Names(c, refs[2], chunks, m2)
  {
    var k0, k1 := Chunk.Chunk(ids[0], session, 0, m0), Chunk.Chunk(ids[1], session, 1, m1);
    var k2 := Chunk.Chunk(ids[2], session, 2, m2);
    chunks := map[ids[0] := k0, ids[1] := k1, ids[2] := k2];
    refs := [RefOf(c, k0, 0), RefOf(c, k1, 1), RefOf(c, k2, 2)];
    assert GroupsOf(refs, chunks) == [m0, m1, m2];
    FlattenThree(m0, m1, m2);
  }

  lemma FlattenThree(a: seq<Message>, b: seq<Message>, d: seq<Message>)
    ensures Flatten([a, b, d]) == a + b + d
  {
    assert [a, b, d][1..] == [b, d] && [b, d][1..] == [d] && [d][1..] == [];
    assert Flatten([d]) == d;
    assert Flatten([b, d]) == b + d;
    assert a + (b + d) == a + b + d;
  }

  /**
   * The append check knows the ids at the ends of chunks and in the batch, so it admits an id that lies
   * inside every chunk that has it. From there a reader asking for four messages at a time is handed
   * the same place to continue from for ever.
   */
  lemma RepeatedIdGoesRound(c: Codec, session: Id, ids: seq<Id>, x: Bytes)
    returns (refs: seq<ChunkRef>, chunks: Store)
    requires |ids| == 3 && ids[0] != ids[1] && ids[0] != ids[2] && ids[1] != ids[2] && |x| > 1
    ensures Matches(c, refs, chunks) && |refs| == 3 && |TranscriptOf(refs, chunks)| == 10
    ensures Fresh([], chunks[refs[0].id].messages) && Fresh(refs[..1], chunks[refs[1].id].messages)
    ensures Fresh(refs[..2], chunks[refs[2].id].messages)
    ensures PageAt(TranscriptOf(refs, chunks), Landing(refs, chunks, x), x, 4) == Page(TranscriptOf(refs, chunks)[1..5], true, x)
    ensures !RepeatsPassedOver(refs, chunks)
  {
    var m0, m1, m2 := Three([1], x, [2]), [Plain([8])] + Three([3], x, [4]), Three([5], x, [6]);
    refs, chunks := ThreeChunks(c, session, ids, m0, m1, m2);
    AdmittedInTurn(refs, x);
    LandsInside(refs, chunks, m0 + m1 + m2, x);
    NoneEarlyExactly(refs, chunks);
  }

  lemma AdmittedInTurn(refs: seq<ChunkRef>, x: Bytes)
    requires |refs| == 3 && |x| > 1
    requires refs[0].first == [1] && refs[0].last == [2] && refs[1].first == [8] && refs[1].last == [4]
    requires refs[2].first == [5] && refs[2].last == [6]
    ensures Fresh([], Three([1], x, [2])) && Fresh(refs[..1], [Plain([8])] + Three([3], x, [4]))
    ensures Fresh(refs[..2], Three([5], x, [6]))
    ensures forall r <- refs :: r.first != x && r.last != x
  {
    KnownEnds(refs);
    ThreeFresh([], {}, [1], x, [2]);
    FourFresh(refs[..1], {[1], [2]}, [8], [3], x, [4]);
    ThreeFresh(refs[..2], {[1], [2], [8], [4]}, [5], x, [6]);
  }

  lemma KnownEnds(refs: seq<ChunkRef>)
    requires |refs| == 3 && refs[0].first == [1] && refs[0].last == [2] && refs[1].first == [8] && refs[1].last == [4]
    ensures Boundaries([]) == {} && Boundaries(refs[..1]) == {[1], [2]} && Boundaries(refs[..2]) == {[1], [2], [8], [4]}
  {
    assert refs[..1] == [] + [refs[0]] && refs[..2] == refs[..1] + [refs[1]];
    OneMoreEnd([], refs[0]);
    OneMoreEnd(refs[..1], refs[1]);
  }

  function Three(a: Bytes, x: Bytes, b: Bytes): seq<Message> { [Plain(a), Plain(x), Plain(b)] }

  lemma ThreeFresh(refs: seq<ChunkRef>, known: set<Bytes>, a: Bytes, x: Bytes, b: Bytes)
    requires Boundaries(refs) == known && a !in known && x !in known && b !in known && a != x && a != b && x != b
    ensures Fresh(refs, Three(a, x, b))
  {
  }

  lemma FourFresh(refs: seq<ChunkRef>, known: set<Bytes>, z: Bytes, a: Bytes, x: Bytes, b: Bytes)
    requires Boundaries(refs) == known && z !in known && a !in known && x !in known && b !in known
    requires a != x && a != b && x != b && z != a && z != x && z != b
    ensures Fresh(refs, [Plain(z)] + Three(a, x, b))
  {
  }

  lemma LandsInside(refs: seq<ChunkRef>, chunks: Store, all: seq<Message>, x: Bytes)
    requires (forall r <- refs :: r.id in chunks) && all == TranscriptOf(refs, chunks)
    requires forall r <- refs :: r.first != x && r.last != x
    requires x != [] && |all| > 5 && all[0].id != x && all[1].id == x && all[5].id == x
    ensures PageAt(all, Landing(refs, chunks, x), x, 4) == Page(all[1..5], true, x)
    ensures !NoneEarly(|all|, Found(refs, chunks))
  {
    InnerOnly(refs, x);
    assert At(all, 0, x) == 1;
    assert Found(refs, chunks)(5) == 1;
  }

  /** A message at no chunk's end is looked for from the beginning. */
  lemma {:induction false} InnerOnly(refs: seq<ChunkRef>, x: Bytes)
    requires forall r <- refs :: r.first != x && r.last != x
    ensures FirstEnd(refs, x) == |refs| && StartAt(refs, x) == 0
  {
    if refs != [] {
      assert refs[0] in refs && forall r <- refs[1..] :: r in refs;
      InnerOnly(refs[1..], x);
    }
  }

  lemma OneMoreEnd(refs: seq<ChunkRef>, r: ChunkRef)
    requires r.first != [] && r.last != []
    ensures Boundaries(refs + [r]) == Boundaries(refs) + {r.first, r.last}
  {
    assert forall q :: q in refs + [r] <==> q in refs || q == r;
  }
}
