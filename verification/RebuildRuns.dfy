/** What a rebuild makes of the chunks a run of writers left behind. */
module RebuildRuns {
  import opened Bytes
  import opened Records
  import opened Conversations
  import opened Splitting
  import opened Transcript
  import opened Heads
  import opened SessionRuns
  import Rebuild

  /** Every chunk is kept under its own id and names the session. */
  ghost predicate OwnStore(session: Id, store: Store) {
    forall id <- store :: store[id].id == id && store[id].session == session
  }

  lemma {:induction false} RunOwns(c: Codec, session: Id, s: State, steps: seq<Step>, end: State)
    requires Inv(c, session, s) && OwnStore(session, s.store) && RunTo(c, session, s, steps, end)
    ensures OwnStore(session, end.store)
    decreases |steps|
  {
    if steps != [] {
      var next := Apply(c, session, s, steps[0]);
      if steps[0].WriteChunk? {
        assert Good(c, session, s, steps[0].p);
      }
      StepKeeps(c, session, s, steps[0]);
      RunOwns(c, session, next, steps[1..], end);
    }
  }

  /** The chunks a rebuild can read: those on the device or in the catalog. */
  function InReach(s: State): Store { map id <- s.store | Readable(s.shelf, id) :: s.store[id] }

  /** The head a writer would have committed had it not died. */
  ghost function WouldBe(c: Codec, l: Lineage, since: nat, m: seq<Message>, id: Id): Head
    requires Stored(l).Some?
  {
    Updated(Finished(c, Saved(c, l, since, m), id).head, m)
  }

  lemma WritesChunk(c: Codec, session: Id, s: State, p: nat, m: seq<Message>, id: Id) returns (written: State)
    requires Stored(s.row).Some? && Greedy(c.measure, m, CHUNK_TARGET_BYTES, [m]) && id !in s.store
    ensures RunTo(c, session, s, [Append(p, m, [m]), WriteChunk(p, id)], written)
    ensures written.row == s.row && p in written.drafts
    ensures written.drafts[p] == Finished(c, Saved(c, s.row, s.forgets, m), id)
    ensures written.store == s.store[id := NextChunk(Saved(c, s.row, s.forgets, m), id)]
    ensures written.shelf.bodies == s.shelf.bodies + {id} && written.shelf.listed == s.shelf.listed
  {
    var read := Apply(c, session, s, Append(p, m, [m]));
    written := Apply(c, session, read, WriteChunk(p, id));
    RunOn(c, session, s, [], s, Append(p, m, [m]));
    RunOn(c, session, s, [] + [Append(p, m, [m])], read, WriteChunk(p, id));
    assert [] + [Append(p, m, [m])] + [WriteChunk(p, id)] == [Append(p, m, [m]), WriteChunk(p, id)];
  }

  /** A writer that dies after its chunk and before its commit: the row stands and the chunk stays. */
  lemma DiesBeforeCommit(c: Codec, session: Id, s: State, p: nat, m: seq<Message>, id: Id) returns (end: State)
    requires Inv(c, session, s) && Stored(s.row).Some?
    requires Greedy(c.measure, m, CHUNK_TARGET_BYTES, [m]) && id !in s.store
    ensures RunTo(c, session, s, [Append(p, m, [m]), WriteChunk(p, id), Dies(p)], end)
    ensures end.row == s.row && end.store.Keys == s.store.Keys + {id}
    ensures end.shelf.bodies == s.shelf.bodies + {id} && end.shelf.listed == s.shelf.listed
    ensures var h, would := Stored(s.row).value, WouldBe(c, s.row, s.forgets, m, id);
      && Settled(c, h, end.store) && Settled(c, would, end.store) && would.id == h.id == session
      && would.chunks == h.chunks + [RefOf(c, end.store[id], |h.chunks|)]
  {
    var written := WritesChunk(c, session, s, p, m, id);
    end := Apply(c, session, written, Dies(p));
    RunOn(c, session, s, [Append(p, m, [m]), WriteChunk(p, id)], written, Dies(p));
    assert [Append(p, m, [m]), WriteChunk(p, id)] + [Dies(p)] == [Append(p, m, [m]), WriteChunk(p, id), Dies(p)];
    RunKeeps(c, session, s, [Append(p, m, [m]), WriteChunk(p, id)], written);
    WouldSettle(c, session, s, written, p, m, id);
  }

  lemma WouldSettle(c: Codec, session: Id, s: State, written: State, p: nat, m: seq<Message>, id: Id)
    requires Inv(c, session, written) && written.row == s.row && Stored(s.row).Some?
    requires p in written.drafts && written.drafts[p] == Finished(c, Saved(c, s.row, s.forgets, m), id)
    ensures Settled(c, Stored(s.row).value, written.store)
    ensures Settled(c, WouldBe(c, s.row, s.forgets, m, id), written.store)
    ensures Stored(s.row).value.id == WouldBe(c, s.row, s.forgets, m, id).id == session
  {
    var d := written.drafts[p];
    assert Good(c, session, written, p);
    CommitOk(c, session, written.store, d);
    LastSettled(c, session, SessionRuns.Extended(d.read, Updated(d.head, d.saving), d.saving), written.store);
    LastSettled(c, session, s.row, written.store);
  }

  lemma LastSettled(c: Codec, session: Id, l: Lineage, store: Store)
    requires LineageOk(c, session, l, store) && Stored(l).Some?
    ensures Settled(c, Stored(l).value, store) && Stored(l).value.id == session
  {
    assert Committed(c, session, l, store, |l.heads| - 1);
  }

  /**
   * From any reachable state whose chunks are all in reach and all named by its head: a writer that
   * dies between its chunk and its commit leaves the head as it was, and a rebuild over those chunks
   * then makes the head that writer never committed, with one chunk more, and reports no gap.
   */
  lemma StrayIsTakenIn(c: Codec, session: Id, steps: seq<Step>, s: State, p: nat, m: seq<Message>, id: Id,
                       ids: seq<Id>, built: Head) returns (end: State)
    requires RunTo(c, session, START, steps, s) && Stored(s.row).Some?
    requires s.store.Keys == Rebuild.NamedBy(Stored(s.row).value.chunks)
    requires forall x <- s.store :: Readable(s.shelf, x)
    requires Greedy(c.measure, m, CHUNK_TARGET_BYTES, [m]) && id !in s.store
    requires AllDiffer(ids) && forall x :: x in ids <==> x in s.store || x == id
    ensures RunTo(c, session, s, [Append(p, m, [m]), WriteChunk(p, id), Dies(p)], end) && end.row == s.row
    ensures var h, would := Stored(s.row).value, WouldBe(c, s.row, s.forgets, m, id);
      var found := Rebuild.OfSession(Rebuild.Found(ids, InReach(end)), session);
      && would.chunks[..|h.chunks|] == h.chunks && |would.chunks| == |h.chunks| + 1
      && Rebuild.OneOfEach(found)
      && (Rebuild.RebuiltFrom(c, session, built, found) ==>
            && built.chunks == would.chunks != h.chunks
            && built.messages == would.messages && built.headMessage == would.headMessage)
  {
    RunKeeps(c, session, START, steps, s);
    RunOwns(c, session, START, steps, s);
    end := DiesBeforeCommit(c, session, s, p, m, id);
    RunOwns(c, session, s, [Append(p, m, [m]), WriteChunk(p, id), Dies(p)], end);
    assert InReach(end) == end.store;
    var would := WouldBe(c, s.row, s.forgets, m, id);
    NamesOneMore(c, Stored(s.row).value.chunks, would.chunks, id);
    AllTaken(c, session, end.store, ids, would, built);
  }

  lemma NamesOneMore(c: Codec, refs: seq<ChunkRef>, more: seq<ChunkRef>, id: Id)
    requires |more| == |refs| + 1 && more[..|refs|] == refs && more[|refs|].id == id
    ensures Rebuild.NamedBy(more) == Rebuild.NamedBy(refs) + {id}
  {
    assert more == refs + [more[|refs|]];
  }

  /** Over all of a session's chunks, when they are the ones a settled head names, a rebuild makes that head and reports no gap. */
  lemma AllTaken(c: Codec, session: Id, store: Store, ids: seq<Id>, would: Head, built: Head)
    requires Settled(c, would, store) && would.id == session && OwnStore(session, store)
    requires AllDiffer(ids) && (forall x :: x in ids <==> x in store) && store.Keys == Rebuild.NamedBy(would.chunks)
    ensures var found := Rebuild.OfSession(Rebuild.Found(ids, store), session);
      && Rebuild.OneOfEach(found)
      && (Rebuild.RebuiltFrom(c, session, built, found) ==>
            built == Head(session, 1, would.chunks, would.chunkCount, would.messages, would.bytes, would.headMessage, []))
  {
    var found := Rebuild.OfSession(Rebuild.Found(ids, store), session);
    assert store.Keys == set x <- ids | x in store && store[x].session == session;
    Rebuild.FoundGenuine(store, ids, session);
    Rebuild.OwnAreNumbered(c, would, store, found);
    if Rebuild.RebuiltFrom(c, session, built, found) {
      Rebuild.RebuildRestores(c, would, store, ids, built);
    }
  }
}
