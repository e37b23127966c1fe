/** Rebuilding session heads from transcript chunks alone, found in any order and in either place. */
module Rebuild {
  import opened Bytes
  import opened Records
  import opened Conversations
  import opened Transcript
  import opened Heads

  // ---------- finding the chunks ----------

  /** Every chunk id the catalog or the device knows, once each. */
  method RecordIds(catalog: seq<(Id, Kind)>, held: seq<Id>) returns (out: seq<Id>)
    ensures AllDiffer(out)
    ensures forall id :: id in out <==> (id, Kind.Chunk) in catalog || id in held
  {
    out := [];
    var seen: set<Id> := {};
    for i := 0 to |catalog|
      invariant AllDiffer(out) && forall id :: id in seen <==> id in out
      invariant forall id :: id in out <==> (id, Kind.Chunk) in catalog[..i]
    {
      assert catalog[..i + 1] == catalog[..i] + [catalog[i]];
      if catalog[i].1 == Kind.Chunk && catalog[i].0 !in seen {
        seen, out := seen + {catalog[i].0}, out + [catalog[i].0];
      }
    }
    assert catalog[..|catalog|] == catalog;
    for i := 0 to |held|
      invariant AllDiffer(out) && forall id :: id in seen <==> id in out
      invariant forall id :: id in out <==> (id, Kind.Chunk) in catalog || id in held[..i]
    {
      assert held[..i + 1] == held[..i] + [held[i]];
      if held[i] !in seen {
        seen, out := seen + {held[i]}, out + [held[i]];
      }
    }
    assert held[..|held|] == held;
  }

  predicate IsZero(id: Id) { forall b <- id.bytes :: b == 0 }

  /** The readable chunks, in the order their ids were found. */
  function Found(ids: seq<Id>, store: Store): seq<Chunk> {
    if ids == [] then []
    else Found(ids[..|ids| - 1], store) + if ids[|ids| - 1] in store then [store[ids[|ids| - 1]]] else []
  }

  function OfSession(found: seq<Chunk>, session: Id): seq<Chunk> {
    if found == [] then []
    else OfSession(found[..|found| - 1], session)
         + if found[|found| - 1].session == session then [found[|found| - 1]] else []
  }

  predicate HasChunks(found: seq<Chunk>, session: Id) { OfSession(found, session) != [] }

  /** Each session's chunks are filed under it, and a chunk that names no session under none. */
  ghost predicate Grouped(groups: map<Id, seq<Chunk>>, order: seq<Id>, found: seq<Chunk>) {
    && (forall s <- groups :: !IsZero(s) && groups[s] != [] && groups[s] == OfSession(found, s))
    && (forall s :: !IsZero(s) && HasChunks(found, s) ==> s in groups)
    && AllDiffer(order) && (forall s :: s in order <==> s in groups)
  }

  method FileChunk(groups0: map<Id, seq<Chunk>>, order0: seq<Id>, chunk: Chunk, ghost found: seq<Chunk>)
    returns (groups: map<Id, seq<Chunk>>, order: seq<Id>)
    requires Grouped(groups0, order0, found)
    ensures Grouped(groups, order, found + [chunk])
  {
    groups, order := groups0, order0;
    assert (found + [chunk])[..|found|] == found;
    if !IsZero(chunk.session) {
      var s := chunk.session;
      if s !in groups {
        assert !HasChunks(found, s);
        order := order + [s];
        groups := groups[s := [chunk]];
      } else {
        groups := groups[s := groups[s] + [chunk]];
      }
    }
  }

  lemma FoundNext(ids: seq<Id>, store: Store, i: nat)
    requires i < |ids|
    ensures Found(ids[..i + 1], store)
      == if ids[i] in store then Found(ids[..i], store) + [store[ids[i]]] else Found(ids[..i], store)
  {
    assert ids[..i + 1][..i] == ids[..i];
  }

  /** Files every readable chunk under the session it names; one that cannot be read costs only itself. */
  method GroupBySession(ids: seq<Id>, store: Store)
    returns (groups: map<Id, seq<Chunk>>, order: seq<Id>, unreadable: nat)
    ensures Grouped(groups, order, Found(ids, store))
    ensures unreadable + |Found(ids, store)| == |ids|
  {
    groups, order, unreadable := map[], [], 0;
    for i := 0 to |ids|
      invariant Grouped(groups, order, Found(ids[..i], store))
      invariant unreadable + |Found(ids[..i], store)| == i
    {
      FoundNext(ids, store, i);
      if ids[i] !in store {
        unreadable := unreadable + 1;
      } else {
        groups, order := FileChunk(groups, order, store[ids[i]], Found(ids[..i], store));
      }
    }
    assert ids[..|ids|] == ids;
  }

  // ---------- putting them in order ----------

  ghost predicate InOrder(chunks: seq<Chunk>) { forall i, j :: 0 <= i < j < |chunks| ==> chunks[i].seqNo <= chunks[j].seqNo }

  /** The chunks carrying one sequence number, in the order they stand. */
  function WithSeq(chunks: seq<Chunk>, k: nat): seq<Chunk> {
    if chunks == [] then []
    else (if chunks[0].seqNo == k then [chunks[0]] else []) + WithSeq(chunks[1..], k)
  }

  /** Nothing added, dropped or duplicated, and equal sequence numbers stay in the order they stood. */
  ghost predicate StablyRearranged(a: seq<Chunk>, b: seq<Chunk>) {
    forall k: nat :: WithSeq(a, k) == WithSeq(b, k)
  }

  lemma {:induction false} WithSeqAppend(a: seq<Chunk>, b: seq<Chunk>, k: nat)
    ensures WithSeq(a + b, k) == WithSeq(a, k) + WithSeq(b, k)
  {
    if a == [] {
      assert a + b == b;
    } else {
      assert (a + b)[1..] == a[1..] + b;
      WithSeqAppend(a[1..], b, k);
      var first := if a[0].seqNo == k then [a[0]] else [];
      assert first + (WithSeq(a[1..], k) + WithSeq(b, k)) == (first + WithSeq(a[1..], k)) + WithSeq(b, k);
    }
  }

  lemma {:induction false} NoneWithSeq(chunks: seq<Chunk>, k: nat)
    requires forall c <- chunks :: c.seqNo != k
    ensures WithSeq(chunks, k) == []
  {
    if chunks != [] {
      assert chunks[0] in chunks && forall c <- chunks[1..] :: c in chunks;
      NoneWithSeq(chunks[1..], k);
    }
  }

  /** Inserting before the first later chunk keeps the order, and keeps equal numbers as they stood. */
  lemma InsertedStably(before: seq<Chunk>, after: seq<Chunk>, chunk: Chunk, k: nat)
    requires forall c <- after :: c.seqNo > chunk.seqNo
    ensures WithSeq(before + [chunk] + after, k) == WithSeq(before + after, k) + WithSeq([chunk], k)
  {
    WithSeqAppend(before + [chunk], after, k);
    WithSeqAppend(before, [chunk], k);
    WithSeqAppend(before, after, k);
    if k == chunk.seqNo {
      NoneWithSeq(after, k);
    } else {
      assert [chunk][1..] == [];
    }
  }

  method Insert(sorted: seq<Chunk>, chunk: Chunk) returns (out: seq<Chunk>)
    requires InOrder(sorted)
    ensures InOrder(out)
    ensures forall k: nat :: WithSeq(out, k) == WithSeq(sorted, k) + WithSeq([chunk], k)
  {
    var before, after: seq<Chunk> := sorted, [];
    assert before + after == sorted;
    while before != [] && before[|before| - 1].seqNo > chunk.seqNo
      invariant before + after == sorted && forall c <- after :: c.seqNo > chunk.seqNo
      decreases |before|
    {
      var last := before[|before| - 1];
      assert before == before[..|before| - 1] + [last];
      before, after := before[..|before| - 1], [last] + after;
      assert before + after == sorted;
    }
    out := before + [chunk] + after;
    InsertedInOrder(before, after, chunk);
    InsertedEverywhere(before, after, chunk);
  }

  lemma InsertedInOrder(before: seq<Chunk>, after: seq<Chunk>, chunk: Chunk)
    requires InOrder(before + after) && forall c <- after :: c.seqNo > chunk.seqNo
    requires before != [] ==> before[|before| - 1].seqNo <= chunk.seqNo
    ensures InOrder(before + [chunk] + after)
  {
    var all, out := before + after, before + [chunk] + after;
    forall i, j | 0 <= i < j < |out| ensures out[i].seqNo <= out[j].seqNo {
      assert i < |before| ==> out[i] == all[i] && all[i].seqNo <= all[|before| - 1].seqNo;
      assert j < |before| ==> out[j] == all[j];
      assert j > |before| ==> out[j] == all[j - 1] && out[j] in after;
      assert i > |before| ==> out[i] == all[i - 1];
    }
  }

  lemma InsertedEverywhere(before: seq<Chunk>, after: seq<Chunk>, chunk: Chunk)
    requires forall c <- after :: c.seqNo > chunk.seqNo
    ensures forall k: nat :: WithSeq(before + [chunk] + after, k) == WithSeq(before + after, k) + WithSeq([chunk], k)
  {
    forall k: nat
      ensures WithSeq(before + [chunk] + after, k) == WithSeq(before + after, k) + WithSeq([chunk], k)
    {
      InsertedStably(before, after, chunk, k);
    }
  }

  method SortBySeq(chunks: seq<Chunk>) returns (out: seq<Chunk>)
    ensures InOrder(out) && StablyRearranged(out, chunks)
  {
    out := [];
    for i := 0 to |chunks|
      invariant InOrder(out) && StablyRearranged(out, chunks[..i])
    {
      OneMore(chunks, i);
      out := Insert(out, chunks[i]);
    }
    assert chunks[..|chunks|] == chunks;
  }

  lemma OneMore(chunks: seq<Chunk>, i: nat)
    requires i < |chunks|
    ensures forall k: nat :: WithSeq(chunks[..i + 1], k) == WithSeq(chunks[..i], k) + WithSeq([chunks[i]], k)
  {
    assert chunks[..i + 1] == chunks[..i] + [chunks[i]];
    forall k: nat ensures WithSeq(chunks[..i + 1], k) == WithSeq(chunks[..i], k) + WithSeq([chunks[i]], k) {
      WithSeqAppend(chunks[..i], [chunks[i]], k);
    }
  }

  // ---------- the head they make ----------

  function RefsOf(c: Codec, chunks: seq<Chunk>): (refs: seq<ChunkRef>)
    ensures |refs| == |chunks| && forall i :: 0 <= i < |chunks| ==> refs[i] == RefOf(c, chunks[i], i)
  {
    seq(|chunks|, i requires 0 <= i < |chunks| => RefOf(c, chunks[i], i))
  }

  function MessagesOf(chunks: seq<Chunk>): seq<Message> {
    if chunks == [] then [] else MessagesOf(chunks[..|chunks| - 1]) + chunks[|chunks| - 1].messages
  }

  /** What the messages and chunks themselves say of the head. */
  function Rebuilt(c: Codec, session: Id, chunks: seq<Chunk>): Head {
    Head(session, 1, RefsOf(c, chunks), |chunks|, |MessagesOf(chunks)|, TotalBytes(RefsOf(c, chunks)),
         LastId(MessagesOf(chunks)), [])
  }

  method RebuildHead(c: Codec, session: Id, chunks: seq<Chunk>) returns (head: Head)
    ensures head == Rebuilt(c, session, chunks)
  {
    head := EmptyHead(session);
    for i := 0 to |chunks|
      invariant head == Rebuilt(c, session, chunks[..i])
    {
      var chunk := chunks[i];
      var ref := RefOf(c, chunk, i);
      assert chunks[..i + 1][..i] == chunks[..i];
      assert RefsOf(c, chunks[..i + 1]) == RefsOf(c, chunks[..i]) + [ref];
      assert RefsOf(c, chunks[..i + 1])[..i] == RefsOf(c, chunks[..i]);
      LastOfMore(MessagesOf(chunks[..i]), chunk.messages);
      head := head.(
        chunks := head.chunks + [ref],
        chunkCount := head.chunkCount + 1,
        messages := head.messages + |chunk.messages|,
        bytes := head.bytes + ref.bytes,
        headMessage := if chunk.messages == [] then head.headMessage else chunk.messages[|chunk.messages| - 1].id);
    }
    assert chunks[..|chunks|] == chunks;
  }

  lemma LastOfMore(a: seq<Message>, b: seq<Message>)
    ensures LastId(a + b) == if b == [] then LastId(a) else LastId(b)
  {
    assert b == [] ==> a + b == a;
  }

  method HasSequenceGap(chunks: seq<Chunk>) returns (gap: bool)
    ensures !gap <==> forall i :: 0 <= i < |chunks| ==> chunks[i].seqNo == i
  {
    for i := 0 to |chunks|
      invariant forall j :: 0 <= j < i ==> chunks[j].seqNo == j
    {
      if chunks[i].seqNo != i {
        return true;
      }
    }
    gap := false;
  }

  // ---------- sorted chunks are settled by their numbers ----------

  /** Chunks numbered from `base` on, one of each number. */
  ghost predicate Numbered(chunks: seq<Chunk>, base: nat) {
    forall i :: 0 <= i < |chunks| ==> chunks[i].seqNo == base + i
  }

  lemma {:induction false} WithSeqNumbered(chunks: seq<Chunk>, base: nat, k: nat)
    requires Numbered(chunks, base)
    ensures WithSeq(chunks, k) == if base <= k < base + |chunks| then [chunks[k - base]] else []
  {
    if chunks != [] {
      assert Numbered(chunks[1..], base + 1) by {
        assert forall i :: 0 <= i < |chunks[1..]| ==> chunks[1..][i] == chunks[i + 1];
      }
      WithSeqNumbered(chunks[1..], base + 1, k);
    }
  }

  lemma {:induction false} FirstWithSeq(chunks: seq<Chunk>, k: nat) returns (i: nat)
    requires WithSeq(chunks, k) != []
    ensures i < |chunks| && chunks[i].seqNo == k && WithSeq(chunks, k)[0] == chunks[i]
    ensures forall j :: 0 <= j < i ==> chunks[j].seqNo != k
  {
    if chunks[0].seqNo == k {
      i := 0;
    } else {
      var j := FirstWithSeq(chunks[1..], k);
      i := j + 1;
    }
  }

  lemma HeadIsNumbered(sorted: seq<Chunk>, chunks: seq<Chunk>, base: nat)
    requires InOrder(sorted) && Numbered(chunks, base) && StablyRearranged(sorted, chunks)
    ensures chunks == [] <==> sorted == []
    ensures chunks != [] ==> sorted[0] == chunks[0]
  {
    if sorted != [] {
      WithSeqNumbered(chunks, base, sorted[0].seqNo);
      assert WithSeq(sorted, sorted[0].seqNo) != [];
    }
    if chunks != [] {
      WithSeqNumbered(chunks, base, base);
      var i := FirstWithSeq(sorted, base);
      assert sorted[0].seqNo <= base;
    }
  }

  /** Sorting chunks that carry each number once puts every one of them at its own position. */
  lemma {:induction false} SortedIs(sorted: seq<Chunk>, chunks: seq<Chunk>, base: nat)
    requires InOrder(sorted) && Numbered(chunks, base) && StablyRearranged(sorted, chunks)
    ensures sorted == chunks
    decreases |sorted|
  {
    HeadIsNumbered(sorted, chunks, base);
    if sorted != [] {
      assert Numbered(chunks[1..], base + 1) by {
        assert forall i :: 0 <= i < |chunks[1..]| ==> chunks[1..][i] == chunks[i + 1];
      }
      forall k: nat ensures WithSeq(sorted[1..], k) == WithSeq(chunks[1..], k) {
        var n := if sorted[0].seqNo == k then 1 else 0;
        assert WithSeq(sorted, k)[n..] == WithSeq(sorted[1..], k) && WithSeq(chunks, k)[n..] == WithSeq(chunks[1..], k);
      }
      assert forall i :: 0 <= i < |sorted[1..]| ==> sorted[1..][i] == sorted[i + 1];
      SortedIs(sorted[1..], chunks[1..], base + 1);
      assert sorted == [sorted[0]] + sorted[1..] && chunks == [chunks[0]] + chunks[1..];
    }
  }

  // ---------- what a rebuild restores ----------

  lemma {:induction false} WithSeqMembers(chunks: seq<Chunk>, k: nat, x: Chunk)
    ensures multiset(WithSeq(chunks, k))[x] == if x.seqNo == k then multiset(chunks)[x] else 0
  {
    if chunks != [] {
      WithSeqMembers(chunks[1..], k, x);
      assert chunks == [chunks[0]] + chunks[1..];
    }
  }

  /** A stable rearrangement holds the same chunks the same number of times. */
  lemma RearrangedSame(a: seq<Chunk>, b: seq<Chunk>)
    requires StablyRearranged(a, b)
    ensures multiset(a) == multiset(b) && |a| == |b|
  {
    forall x ensures multiset(a)[x] == multiset(b)[x] {
      WithSeqMembers(a, x.seqNo, x);
      WithSeqMembers(b, x.seqNo, x);
      assert WithSeq(a, x.seqNo) == WithSeq(b, x.seqNo);
    }
    assert |multiset(a)| == |a| && |multiset(b)| == |b|;
  }

  /** The numbers 0 to n - 1, each once, and no other. */
  ghost predicate OneOfEach(found: seq<Chunk>) {
    forall k: nat :: |WithSeq(found, k)| == if k < |found| then 1 else 0
  }

  /** The gap report is false exactly when the chunks found carry the numbers 0 to n - 1, each once. */
  lemma GapIsMissingNumber(found: seq<Chunk>, sorted: seq<Chunk>)
    requires InOrder(sorted) && StablyRearranged(sorted, found)
    ensures Numbered(sorted, 0) <==> OneOfEach(found)
  {
    RearrangedSame(sorted, found);
    if Numbered(sorted, 0) {
      forall k: nat ensures |WithSeq(found, k)| == if k < |found| then 1 else 0 {
        WithSeqNumbered(sorted, 0, k);
        assert WithSeq(sorted, k) == WithSeq(found, k);
      }
    }
    if OneOfEach(found) {
      AllNumbersFound(found, sorted);
    }
  }

  lemma AllNumbersFound(found: seq<Chunk>, sorted: seq<Chunk>)
    requires InOrder(sorted) && StablyRearranged(sorted, found)
    requires OneOfEach(found)
    ensures Numbered(sorted, 0)
  {
    var chunks := seq(|found|, k requires 0 <= k < |found| => WithSeq(found, k)[0]);
    forall k | 0 <= k < |found| ensures chunks[k].seqNo == k {
      var i := FirstWithSeq(found, k);
    }
    assert Numbered(chunks, 0);
    forall k: nat ensures WithSeq(sorted, k) == WithSeq(chunks, k) {
      WithSeqNumbered(chunks, 0, k);
      assert WithSeq(sorted, k) == WithSeq(found, k);
    }
    SortedIs(sorted, chunks, 0);
  }

  function IdsOf(chunks: seq<Chunk>): set<Id> { set ch <- chunks :: ch.id }

  function NamedBy(refs: seq<ChunkRef>): set<Id> { set r <- refs :: r.id }

  ghost predicate ChunksDiffer(found: seq<Chunk>) { forall i, j :: 0 <= i < j < |found| ==> found[i].id != found[j].id }

  /** Chunks of one session as they were written, each found once. */
  ghost predicate Genuine(found: seq<Chunk>, session: Id, store: Store) {
    && (forall ch <- found :: ch.id in store && store[ch.id] == ch && ch.session == session)
    && ChunksDiffer(found)
  }

  /** The chunks a head names, in the order it names them. */
  ghost function Named(refs: seq<ChunkRef>, store: Store): (chunks: seq<Chunk>)
    requires forall r <- refs :: r.id in store
    ensures |chunks| == |refs| && forall i :: 0 <= i < |refs| ==> chunks[i] == store[refs[i].id]
  {
    seq(|refs|, i requires 0 <= i < |refs| => store[refs[i].id])
  }

  lemma NamedIsNumbered(c: Codec, h: Head, store: Store)
    requires Settled(c, h, store)
    ensures forall r <- h.chunks :: r.id in store
    ensures var chunks := Named(h.chunks, store);
      && Numbered(chunks, 0) && RefsOf(c, chunks) == h.chunks
      && MessagesOf(chunks) == Said(h.chunks, store)
      && forall i :: 0 <= i < |chunks| ==> chunks[i].id == h.chunks[i].id
  {
    RefsAreThere(c, h.id, h.chunks, store);
    var chunks := Named(h.chunks, store);
    forall i | 0 <= i < |chunks|
      ensures chunks[i].seqNo == i && RefOf(c, chunks[i], i) == h.chunks[i] && chunks[i].id == h.chunks[i].id
    {
      assert RefOk(c, h.id, h.chunks, store, i);
    }
    assert RefsOf(c, chunks) == h.chunks;
    MessagesNamed(h.chunks, store);
  }

  lemma {:induction false} MessagesNamed(refs: seq<ChunkRef>, store: Store)
    requires forall r <- refs :: r.id in store
    ensures MessagesOf(Named(refs, store)) == TranscriptOf(refs, store)
    decreases |refs|
  {
    if refs != [] {
      var front, last := refs[..|refs| - 1], refs[|refs| - 1];
      assert refs == front + [last];
      MessagesNamed(front, store);
      assert Named(refs, store)[..|refs| - 1] == Named(front, store);
      SaidNext(front, store, last);
      assert forall r <- front :: r.id in store;
    }
  }

  lemma {:induction false} OnlyOne(found: seq<Chunk>, k: nat, x: Chunk)
    requires x in found && x.seqNo == k && forall ch <- found :: ch.seqNo == k ==> ch == x
    requires forall i, j :: 0 <= i < j < |found| ==> found[i].id != found[j].id
    ensures WithSeq(found, k) == [x]
  {
    var rest := found[1..];
    assert forall ch <- rest :: ch in found;
    assert forall i, j :: 0 <= i < j < |rest| ==> rest[i] == found[i + 1] && rest[j] == found[j + 1];
    if found[0].seqNo == k {
      forall ch <- rest ensures ch.seqNo != k {
        var i :| 0 <= i < |rest| && rest[i] == ch;
        assert found[0].id != found[i + 1].id;
      }
      NoneWithSeq(rest, k);
    } else {
      OnlyOne(rest, k, x);
    }
  }

  /** Exactly the head's own chunks, in whatever order they were found, sort into the head's order. */
  lemma OwnChunksSort(c: Codec, h: Head, store: Store, found: seq<Chunk>, sorted: seq<Chunk>)
    requires Settled(c, h, store) && Genuine(found, h.id, store) && IdsOf(found) == NamedBy(h.chunks)
    requires InOrder(sorted) && StablyRearranged(sorted, found)
    ensures (forall r <- h.chunks :: r.id in store) && sorted == Named(h.chunks, store)
  {
    NamedIsNumbered(c, h, store);
    var chunks := Named(h.chunks, store);
    FoundAreNamed(h, store, found, chunks);
    SameNumbers(found, chunks);
    assert StablyRearranged(sorted, chunks);
    SortedIs(sorted, chunks, 0);
  }

  /** The head's own chunks carry each number once, however they were found. */
  lemma OwnAreNumbered(c: Codec, h: Head, store: Store, found: seq<Chunk>)
    requires Settled(c, h, store) && Genuine(found, h.id, store) && IdsOf(found) == NamedBy(h.chunks)
    ensures |found| == |h.chunks|
    ensures forall k: nat :: |WithSeq(found, k)| == if k < |h.chunks| then 1 else 0
  {
    NamedIsNumbered(c, h, store);
    var chunks := Named(h.chunks, store);
    FoundAreNamed(h, store, found, chunks);
    SameNumbers(found, chunks);
    RearrangedSame(found, chunks);
    forall k: nat ensures |WithSeq(found, k)| == if k < |h.chunks| then 1 else 0 {
      WithSeqNumbered(chunks, 0, k);
      assert WithSeq(found, k) == WithSeq(chunks, k);
    }
  }

  // ---------- when the gap report sees a stray ----------

  /** Of the chunks found, those these ids name. */
  function OwnOf(found: seq<Chunk>, named: set<Id>): seq<Chunk> {
    if found == [] then []
    else
      var last := found[|found| - 1];
      OwnOf(found[..|found| - 1], named) + if last.id in named then [last] else []
  }

  /** Of the chunks found, those no committed save wrote. */
  function StraysOf(found: seq<Chunk>, named: set<Id>): seq<Chunk> {
    if found == [] then []
    else
      var last := found[|found| - 1];
      StraysOf(found[..|found| - 1], named) + if last.id in named then [] else [last]
  }

  lemma {:induction false} SplitCounts(found: seq<Chunk>, named: set<Id>, k: nat)
    ensures |found| == |OwnOf(found, named)| + |StraysOf(found, named)|
    ensures |WithSeq(found, k)| == |WithSeq(OwnOf(found, named), k)| + |WithSeq(StraysOf(found, named), k)|
    decreases |found|
  {
    if found != [] {
      var front, last := found[..|found| - 1], found[|found| - 1];
      SplitCounts(front, named, k);
      assert found == front + [last];
      WithSeqAppend(front, [last], k);
      WithSeqAppend(OwnOf(front, named), [last], k);
      WithSeqAppend(StraysOf(front, named), [last], k);
      assert OwnOf(front, named) + [] == OwnOf(front, named) && StraysOf(front, named) + [] == StraysOf(front, named);
    }
  }

  lemma {:induction false} OwnMembers(found: seq<Chunk>, named: set<Id>, ch: Chunk)
    ensures ch in OwnOf(found, named) <==> ch in found && ch.id in named
    decreases |found|
  {
    if found != [] {
      OwnMembers(found[..|found| - 1], named, ch);
      assert found == found[..|found| - 1] + [found[|found| - 1]];
    }
  }

  lemma {:induction false} OwnDiffer(found: seq<Chunk>, named: set<Id>)
    requires ChunksDiffer(found)
    ensures ChunksDiffer(OwnOf(found, named))
    decreases |found|
  {
    if found != [] {
      var front, last := found[..|found| - 1], found[|found| - 1];
      OwnDiffer(front, named);
      forall ch <- OwnOf(front, named) ensures ch.id != last.id {
        OwnMembers(front, named, ch);
        var i :| 0 <= i < |front| && front[i] == ch;
        assert found[i] == ch;
      }
    }
  }

  /** Numbered from `base` on, each once, in whatever order they were found. */
  ghost predicate CarryOn(strays: seq<Chunk>, base: nat) {
    forall k: nat :: |WithSeq(strays, k)| == if base <= k < base + |strays| then 1 else 0
  }

  /**
   * Given all the head's own chunks and any strays, the gap report is false exactly when the strays
   * carry on from the head's last number, each number once: then nothing tells them from its own.
   */
  lemma GapSeesStrays(c: Codec, h: Head, store: Store, found: seq<Chunk>)
    requires Settled(c, h, store) && Genuine(found, h.id, store) && NamedBy(h.chunks) <= IdsOf(found)
    ensures OneOfEach(found) <==> CarryOn(StraysOf(found, NamedBy(h.chunks)), |h.chunks|)
  {
    var named := NamedBy(h.chunks);
    var own, strays := OwnOf(found, named), StraysOf(found, named);
    OwnFound(h.id, store, found, named);
    OwnAreNumbered(c, h, store, own);
    SplitCounts(found, named, 0);
    forall k: nat ensures |WithSeq(found, k)| == (if k < |h.chunks| then 1 else 0) + |WithSeq(strays, k)| {
      SplitCounts(found, named, k);
    }
    CountsCarryOn(found, strays, |h.chunks|);
  }

  lemma OwnFound(session: Id, store: Store, found: seq<Chunk>, named: set<Id>)
    requires Genuine(found, session, store) && named <= IdsOf(found)
    ensures Genuine(OwnOf(found, named), session, store) && IdsOf(OwnOf(found, named)) == named
  {
    OwnDiffer(found, named);
    forall ch ensures ch in OwnOf(found, named) <==> ch in found && ch.id in named {
      OwnMembers(found, named, ch);
    }
    forall id | id in named ensures id in IdsOf(OwnOf(found, named)) {
      var ch :| ch in found && ch.id == id;
      assert ch in OwnOf(found, named);
    }
  }

  lemma CountsCarryOn(found: seq<Chunk>, strays: seq<Chunk>, n: nat)
    requires |found| == n + |strays|
    requires forall k: nat :: |WithSeq(found, k)| == (if k < n then 1 else 0) + |WithSeq(strays, k)|
    ensures OneOfEach(found) <==> CarryOn(strays, n)
  {
    if CarryOn(strays, n) {
      forall k: nat ensures |WithSeq(found, k)| == if k < |found| then 1 else 0 {
        assert |WithSeq(strays, k)| == if n <= k < n + |strays| then 1 else 0;
      }
    }
    if OneOfEach(found) {
      forall k: nat ensures |WithSeq(strays, k)| == if n <= k < n + |strays| then 1 else 0 {
        assert |WithSeq(found, k)| == if k < |found| then 1 else 0;
      }
    }
  }

  /** Chunks found once each, and numbered chunks, that are the same chunks are rearrangements of each other. */
  lemma SameNumbers(found: seq<Chunk>, chunks: seq<Chunk>)
    requires Numbered(chunks, 0) && (forall ch <- found :: ch in chunks)
    requires forall i :: 0 <= i < |chunks| ==> chunks[i] in found
    requires forall i, j :: 0 <= i < j < |found| ==> found[i].id != found[j].id
    ensures StablyRearranged(found, chunks)
  {
    forall k: nat ensures WithSeq(found, k) == WithSeq(chunks, k) {
      WithSeqNumbered(chunks, 0, k);
      if k < |chunks| {
        OnlyOne(found, k, chunks[k]);
      } else {
        NoneWithSeq(found, k);
      }
    }
  }

  lemma FoundAreNamed(h: Head, store: Store, found: seq<Chunk>, chunks: seq<Chunk>)
    requires Genuine(found, h.id, store) && IdsOf(found) == NamedBy(h.chunks)
    requires |chunks| == |h.chunks| && forall i :: 0 <= i < |chunks| ==>
      h.chunks[i].id in store && chunks[i] == store[h.chunks[i].id]
    ensures forall ch <- found :: ch in chunks
    ensures forall i :: 0 <= i < |chunks| ==> chunks[i] in found
  {
    forall ch <- found ensures ch in chunks {
      assert ch.id in IdsOf(found);
      var r :| r in h.chunks && r.id == ch.id;
      var i :| 0 <= i < |h.chunks| && h.chunks[i] == r;
      assert chunks[i] == ch;
    }
    forall i | 0 <= i < |chunks| ensures chunks[i] in found {
      assert h.chunks[i] in h.chunks && h.chunks[i].id in IdsOf(found);
      var x :| x in found && x.id == h.chunks[i].id;
    }
  }

  /**
   * A rebuild restores the head's chunk list exactly when what it found is the head's own chunks: all
   * of them, and no chunk of a save that was never committed. The counts and the last message then
   * come back too.
   */
  lemma RestoresExactly(c: Codec, h: Head, store: Store, found: seq<Chunk>, sorted: seq<Chunk>)
    requires Settled(c, h, store) && Genuine(found, h.id, store)
    requires InOrder(sorted) && StablyRearranged(sorted, found)
    ensures var built := Rebuilt(c, h.id, sorted);
      && (built.chunks == h.chunks <==> IdsOf(found) == NamedBy(h.chunks))
      && (built.chunks == h.chunks ==>
            && built.messages == h.messages && built.chunkCount == h.chunkCount && built.bytes == h.bytes
            && built.headMessage == h.headMessage && MessagesOf(sorted) == Said(h.chunks, store))
  {
    if IdsOf(found) == NamedBy(h.chunks) {
      OwnChunksSort(c, h, store, found, sorted);
      NamedIsNumbered(c, h, store);
    }
    if RefsOf(c, sorted) == h.chunks {
      SortedNames(c, found, sorted, h.chunks);
    }
  }

  lemma SortedNames(c: Codec, found: seq<Chunk>, sorted: seq<Chunk>, refs: seq<ChunkRef>)
    requires StablyRearranged(sorted, found) && RefsOf(c, sorted) == refs
    ensures IdsOf(found) == NamedBy(refs)
  {
    RearrangedSame(sorted, found);
    forall id ensures id in IdsOf(found) <==> id in NamedBy(refs) {
      if id in IdsOf(found) {
        var ch :| ch in found && ch.id == id;
        assert ch in multiset(found) && ch in multiset(sorted);
        var i :| 0 <= i < |sorted| && sorted[i] == ch;
        assert refs[i].id == id && refs[i] in refs;
      }
      if id in NamedBy(refs) {
        var r :| r in refs && r.id == id;
        var i :| 0 <= i < |refs| && refs[i] == r;
        assert sorted[i] in multiset(sorted) && sorted[i] in multiset(found);
        assert sorted[i] in found && sorted[i].id == id;
      }
    }
  }

  // ---------- the whole rebuild ----------

  /** The head made of these chunks, sorted. */
  ghost predicate RebuiltFrom(c: Codec, session: Id, head: Head, found: seq<Chunk>) {
    exists sorted :: InOrder(sorted) && StablyRearranged(sorted, found) && head == Rebuilt(c, session, sorted)
  }

  method RebuildOne(c: Codec, session: Id, found: seq<Chunk>) returns (head: Head, gap: bool)
    ensures RebuiltFrom(c, session, head, found)
    ensures gap <==> !OneOfEach(found)
  {
    var sorted := SortBySeq(found);
    head := RebuildHead(c, session, sorted);
    gap := HasSequenceGap(sorted);
    GapIsMissingNumber(found, sorted);
  }

  /** The sessions rebuilt so far: each from its own chunks, and reported as having a gap when one is missing. */
  ghost predicate Reported(c: Codec, found: seq<Chunk>, heads: map<Id, Head>, gaps: set<Id>) {
    && gaps <= heads.Keys
    && forall s {:trigger SessionReported(c, OfSession(found, s), s, heads[s], s in gaps)} | s in heads ::
      SessionReported(c, OfSession(found, s), s, heads[s], s in gaps)
  }

  ghost predicate SessionReported(c: Codec, found: seq<Chunk>, session: Id, head: Head, gap: bool) {
    RebuiltFrom(c, session, head, found) && (gap <==> !OneOfEach(found))
  }

  lemma ReportedNext(c: Codec, found: seq<Chunk>, heads: map<Id, Head>, gaps: set<Id>, s: Id, head: Head, gap: bool)
    requires Reported(c, found, heads, gaps) && s !in heads
    requires RebuiltFrom(c, s, head, OfSession(found, s)) && (gap <==> !OneOfEach(OfSession(found, s)))
    ensures Reported(c, found, heads[s := head], if gap then gaps + {s} else gaps)
  {
    var all, missing := heads[s := head], if gap then gaps + {s} else gaps;
    forall k | k in all ensures SessionReported(c, OfSession(found, k), k, all[k], k in missing) {
      assert k != s ==> SessionReported(c, OfSession(found, k), k, heads[k], k in gaps);
    }
  }

  /** Rebuilds a head for every session some readable chunk names, from the catalog's and the device's chunks. */
  method RebuildSessions(c: Codec, catalog: seq<(Id, Kind)>, held: seq<Id>, store: Store)
    returns (heads: map<Id, Head>, gaps: set<Id>, ids: seq<Id>)
    ensures AllDiffer(ids) && forall id :: id in ids <==> (id, Kind.Chunk) in catalog || id in held
    ensures forall s :: s in heads <==> !IsZero(s) && HasChunks(Found(ids, store), s)
    ensures Reported(c, Found(ids, store), heads, gaps)
  {
    ids := RecordIds(catalog, held);
    var groups, order, unreadable := GroupBySession(ids, store);
    heads, gaps := RebuildEach(c, groups, order, Found(ids, store));
    forall s ensures s in groups <==> !IsZero(s) && HasChunks(Found(ids, store), s) {
    }
  }

  method RebuildEach(c: Codec, groups: map<Id, seq<Chunk>>, order: seq<Id>, ghost found: seq<Chunk>)
    returns (heads: map<Id, Head>, gaps: set<Id>)
    requires Grouped(groups, order, found)
    ensures heads.Keys == groups.Keys && Reported(c, found, heads, gaps)
  {
    heads, gaps := map[], {};
    for i := 0 to |order|
      invariant forall s :: s in heads <==> s in order[..i]
      invariant Reported(c, found, heads, gaps)
    {
      var s := order[i];
      assert s in order && order[..i + 1] == order[..i] + [s];
      var head, gap := RebuildOne(c, s, groups[s]);
      ReportedNext(c, found, heads, gaps, s, head, gap);
      heads := heads[s := head];
      if gap {
        gaps := gaps + {s};
      }
    }
    assert order[..|order|] == order;
    forall s ensures s in heads <==> s in groups {
      assert s in order <==> s in groups;
    }
  }

  lemma {:induction false} FoundMembers(ids: seq<Id>, store: Store, ch: Chunk)
    requires forall id <- store :: store[id].id == id
    ensures ch in Found(ids, store) <==> ch.id in ids && ch.id in store && store[ch.id] == ch
    decreases |ids|
  {
    if ids != [] {
      FoundMembers(ids[..|ids| - 1], store, ch);
      assert ids == ids[..|ids| - 1] + [ids[|ids| - 1]];
    }
  }

  lemma {:induction false} OfSessionMembers(found: seq<Chunk>, session: Id, ch: Chunk)
    ensures ch in OfSession(found, session) <==> ch in found && ch.session == session
    decreases |found|
  {
    if found != [] {
      OfSessionMembers(found[..|found| - 1], session, ch);
      assert found == found[..|found| - 1] + [found[|found| - 1]];
    }
  }

  lemma {:induction false} FoundDiffer(ids: seq<Id>, store: Store)
    requires AllDiffer(ids) && forall id <- store :: store[id].id == id
    ensures ChunksDiffer(Found(ids, store))
    decreases |ids|
  {
    if ids != [] {
      var front, last := ids[..|ids| - 1], ids[|ids| - 1];
      FoundDiffer(front, store);
      forall ch <- Found(front, store) ensures ch.id != last {
        FoundMembers(front, store, ch);
      }
    }
  }

  lemma {:induction false} OfSessionDiffer(found: seq<Chunk>, session: Id)
    requires ChunksDiffer(found)
    ensures ChunksDiffer(OfSession(found, session))
    decreases |found|
  {
    if found != [] {
      var front, last := found[..|found| - 1], found[|found| - 1];
      OfSessionDiffer(front, session);
      forall ch <- OfSession(front, session) ensures ch.id != last.id {
        OfSessionMembers(front, session, ch);
        var i :| 0 <= i < |front| && front[i] == ch;
        assert found[i] == ch;
      }
    }
  }

  /**
   * The rebuilt head of a session has the committed head's chunk list exactly when the chunk ids found
   * for the session are the ones the head names; where they were found, and in what order, is no matter.
   */
  lemma RebuildRestores(c: Codec, h: Head, store: Store, ids: seq<Id>, built: Head)
    requires Settled(c, h, store) && AllDiffer(ids) && forall id <- store :: store[id].id == id
    requires RebuiltFrom(c, h.id, built, OfSession(Found(ids, store), h.id))
    ensures built.chunks == h.chunks
      <==> NamedBy(h.chunks) == set id <- ids | id in store && store[id].session == h.id
    ensures built.chunks == h.chunks ==>
      built == Head(h.id, 1, h.chunks, h.chunkCount, h.messages, h.bytes, h.headMessage, [])
  {
    var found := OfSession(Found(ids, store), h.id);
    FoundGenuine(store, ids, h.id);
    var sorted :| InOrder(sorted) && StablyRearranged(sorted, found) && built == Rebuilt(c, h.id, sorted);
    RestoresExactly(c, h, store, found, sorted);
  }

  /** What is found for a session is its chunks among these ids, each once and as it was written. */
  lemma FoundGenuine(store: Store, ids: seq<Id>, session: Id)
    requires AllDiffer(ids) && forall id <- store :: store[id].id == id
    ensures var found := OfSession(Found(ids, store), session);
      && Genuine(found, session, store)
      && IdsOf(found) == set id <- ids | id in store && store[id].session == session
  {
    var found := OfSession(Found(ids, store), session);
    FoundDiffer(ids, store);
    OfSessionDiffer(Found(ids, store), session);
    forall ch <- found ensures ch.id in store && store[ch.id] == ch && ch.session == session {
      FoundIs(ids, store, session, ch);
    }
    forall id ensures id in IdsOf(found) <==> id in ids && id in store && store[id].session == session {
      if id in ids && id in store {
        FoundIs(ids, store, session, store[id]);
      }
      if id in IdsOf(found) {
        var ch :| ch in found && ch.id == id;
        FoundIs(ids, store, session, ch);
      }
    }
  }

  lemma FoundIs(ids: seq<Id>, store: Store, session: Id, ch: Chunk)
    requires forall id <- store :: store[id].id == id
    ensures ch in OfSession(Found(ids, store), session)
      <==> ch.id in ids && ch.id in store && store[ch.id] == ch && ch.session == session
  {
    FoundMembers(ids, store, ch);
    OfSessionMembers(Found(ids, store), session, ch);
  }

  // ---------- what a rebuild may claim ----------

  /** How a rebuilt field was come by, strongest first. */
  datatype Origin = FromChunk | Derived | Observed | Reverse | Synthesised | Lost

  function Rank(o: Origin): nat {
    match o
    case FromChunk => 0 case Derived => 1 case Observed => 2 case Reverse => 3 case Synthesised => 4 case Lost => 5
  }

  method MergeOrigins(into: map<string, Origin>, from: map<string, Origin>) returns (merged: map<string, Origin>)
    ensures merged == Weakest(into, from)
  {
    merged := into;
    var left := from.Keys;
    while left != {}
      invariant left <= from.Keys
      invariant merged == Weakest(into, from - left)
      decreases left
    {
      var field :| field in left;
      if field !in merged || Rank(from[field]) > Rank(merged[field]) {
        merged := merged[field := from[field]];
      }
      left := left - {field};
    }
    assert from - {} == from;
  }

  /** For every field the weaker of the two verdicts, or the only one. */
  function Weakest(a: map<string, Origin>, b: map<string, Origin>): map<string, Origin> {
    map f | f in a.Keys + b.Keys ::
      if f !in b then a[f] else if f !in a then b[f] else if Rank(b[f]) > Rank(a[f]) then b[f] else a[f]
  }

  function MergeAll(reports: seq<map<string, Origin>>): map<string, Origin> {
    if reports == [] then map[] else Weakest(MergeAll(reports[..|reports| - 1]), reports[|reports| - 1])
  }

  /** The verdict a rebuild reports: every head's folded in, one after another. */
  method ReportOrigins(reports: seq<map<string, Origin>>) returns (merged: map<string, Origin>)
    ensures merged == MergeAll(reports)
  {
    merged := map[];
    for i := 0 to |reports|
      invariant merged == MergeAll(reports[..i])
    {
      assert reports[..i + 1][..i] == reports[..i];
      merged := MergeOrigins(merged, reports[i]);
    }
    assert reports[..|reports|] == reports;
  }

  /** The verdict over many heads is one some head gave, and no head gave a weaker one. */
  lemma {:induction false} VerdictIsWeakest(reports: seq<map<string, Origin>>, f: string)
    ensures f in MergeAll(reports) <==> exists r <- reports :: f in r
    ensures f in MergeAll(reports) ==>
      && (exists r <- reports :: f in r && r[f] == MergeAll(reports)[f])
      && (forall r <- reports :: f in r ==> Rank(r[f]) <= Rank(MergeAll(reports)[f]))
    decreases |reports|
  {
    if reports != [] {
      var front, last := reports[..|reports| - 1], reports[|reports| - 1];
      assert reports == front + [last];
      VerdictIsWeakest(front, f);
      assert last in reports && forall r <- front :: r in reports;
    }
  }
}
