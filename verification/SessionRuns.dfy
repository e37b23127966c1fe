/** Any number of writers appending to and linking one session at once, each swapping the head in by version. */
module SessionRuns {
  import opened Bytes
  import opened Records
  import opened Conversations
  import opened Splitting
  import opened Transcript
  import opened Heads

  /** The heads a stored head followed, itself last, and the save each of them committed. */
  datatype Lineage = Lineage(heads: seq<Head>, saves: seq<seq<Message>>)

  const NO_ROW := Lineage([], [])

  function Extended(l: Lineage, h: Head, saving: seq<Message>): Lineage {
    Lineage(l.heads + [h], l.saves + [saving])
  }

  function Stored(l: Lineage): Option<Head> {
    if l.heads == [] then None else Some(l.heads[|l.heads| - 1])
  }

  /** A writer between reading the head and writing it back. */
  datatype Draft = Draft(
    head: Head,                    // as it will be written
    read: Lineage,                 // the row it read, with what that was built on; none when creating
    since: nat,                    // how often the row had been forgotten by then
    saving: seq<Message>,          // everything this save appends
    left: seq<seq<Message>>)       // the groups not yet written as chunks

  /** Where chunks are to be had: bodies on the device, rows of the queue, live catalog entries, reads under way. */
  datatype Shelf = Shelf(bodies: set<Id>, queued: set<Id>, listed: set<Id>, fetching: map<nat, Id>)

  /** A chunk is read from the device or through the catalog; its row in the queue answers no read. */
  predicate Readable(shelf: Shelf, id: Id) { id in shelf.bodies || id in shelf.listed }

  /** A session being forgotten: the chunks still to be dropped, the first of them perhaps half dropped. */
  datatype Drops = Drops(left: seq<Id>, bodyGone: bool)

  /**
   * Only the last head of `row` is stored; `log` is every save any writer was told is committed;
   * `store` is every chunk ever written and `named` every chunk some forgetting set out to drop.
   */
  datatype State = State(
    row: Lineage,
    log: seq<seq<Message>>,
    forgets: nat,
    store: Store,
    drafts: map<nat, Draft>,
    shelf: Shelf,
    forgetting: map<nat, Drops>,
    named: set<Id>)

  const START := State(NO_ROW, [], 0, map[], map[], Shelf({}, {}, {}, map[]), map[], {})

  datatype Step =
    | Create(p: nat, messages: seq<Message>, groups: seq<seq<Message>>)
    | Append(p: nat, messages: seq<Message>, groups: seq<seq<Message>>)
    | LinkMemory(p: nat, memory: Id)
    | WriteChunk(p: nat, id: Id)
    | Commit(p: nat)
    | Dies(p: nat)
    | BeginForget(p: nat)
    | DropBody(p: nat)
    | DropEntry(p: nat)
    | DropHead(p: nat)
    | Catalogue(id: Id)
    | Look(p: nat, id: Id)
    | Keep(p: nat)

  /** The version the writer read; zero when it is creating the session. */
  function From(d: Draft): nat { |d.read.heads| }

  /** What the swap does: the row must still be at the version its writer read, unless there is no row. */
  predicate Swaps(s: State, d: Draft) {
    Stored(s.row).None? || Stored(s.row).value.version == From(d)
  }

  ghost predicate Enabled(c: Codec, s: State, step: Step) {
    match step
    case Create(p, messages, groups) => Greedy(c.measure, messages, CHUNK_TARGET_BYTES, groups)
    case Append(p, messages, groups) =>
      Stored(s.row).Some? && Greedy(c.measure, messages, CHUNK_TARGET_BYTES, groups)
    case LinkMemory(p, memory) => Stored(s.row).Some? && memory !in Stored(s.row).value.links
    case WriteChunk(p, id) => p in s.drafts && s.drafts[p].left != [] && id !in s.store
    case Commit(p) => p in s.drafts && s.drafts[p].left == []
    case Dies(p) => true
    case BeginForget(p) => Stored(s.row).Some?
    case DropBody(p) => p in s.forgetting && s.forgetting[p].left != [] && !s.forgetting[p].bodyGone
    case DropEntry(p) => p in s.forgetting && s.forgetting[p].left != [] && s.forgetting[p].bodyGone
    case DropHead(p) => p in s.forgetting && s.forgetting[p].left == []
    case Catalogue(id) => id in s.shelf.queued
    case Look(p, id) => id in s.shelf.listed
    case Keep(p) => p in s.shelf.fetching
  }

  /** What the steps of forgetting, flushing and reading do; they touch no draft and no chunk. */
  ghost function ApplyShelf(c: Codec, s: State, step: Step): State
    requires Enabled(c, s, step)
  {
    var shelf := s.shelf;
    match step
    case BeginForget(p) =>
      var ids := IdsOf(Stored(s.row).value.chunks);
      s.(forgetting := s.forgetting[p := Drops(ids, false)], named := s.named + Elements(ids))
    case DropBody(p) =>
      s.(shelf := shelf.(bodies := shelf.bodies - {s.forgetting[p].left[0]}),
         forgetting := s.forgetting[p := Drops(s.forgetting[p].left, true)])
    case DropEntry(p) =>
      s.(shelf := shelf.(listed := shelf.listed - {s.forgetting[p].left[0]}),
         forgetting := s.forgetting[p := Drops(s.forgetting[p].left[1..], false)])
    case DropHead(p) => s.(row := NO_ROW, forgets := s.forgets + 1, forgetting := s.forgetting - {p})
    case Catalogue(id) => s.(shelf := shelf.(queued := shelf.queued - {id}, listed := shelf.listed + {id}))
    case Look(p, id) => s.(shelf := shelf.(fetching := shelf.fetching[p := id]))
    case Keep(p) =>
      s.(shelf := shelf.(bodies := shelf.bodies + {shelf.fetching[p]}, fetching := shelf.fetching - {p}))
    case _ => s
  }

  function IdsOf(refs: seq<ChunkRef>): (ids: seq<Id>)
    ensures |ids| == |refs| && forall i :: 0 <= i < |refs| ==> ids[i] == refs[i].id
  {
    seq(|refs|, i requires 0 <= i < |refs| => refs[i].id)
  }

  function Elements(ids: seq<Id>): set<Id> { set id <- ids :: id }

  lemma ElementsSplit(ids: seq<Id>)
    requires ids != []
    ensures Elements(ids) == {ids[0]} + Elements(ids[1..])
  {
    assert ids[0] in ids;
    forall id | id in ids ensures id == ids[0] || id in ids[1..] {
      var i :| 0 <= i < |ids| && ids[i] == id;
      assert i > 0 ==> ids[1..][i - 1] == id;
    }
    forall id | id in ids[1..] ensures id in ids {
      var i :| 0 <= i < |ids[1..]| && ids[1..][i] == id;
      assert ids[i + 1] == id;
    }
  }

  function Reopened(h: Head): Head { h.(version := h.version + 1) }

  ghost function Apply(c: Codec, session: Id, s: State, step: Step): State
    requires Enabled(c, s, step)
  {
    match step
    case Create(p, messages, groups) =>
      s.(drafts := s.drafts[p := Draft(EmptyHead(session), NO_ROW, s.forgets, messages, groups)])
    case Append(p, messages, groups) =>
      s.(drafts := s.drafts[p := Draft(Reopened(Stored(s.row).value), s.row, s.forgets, messages, groups)])
    case LinkMemory(p, memory) =>
      var h := Stored(s.row).value;
      s.(drafts := s.drafts[p := Draft(Reopened(h.(links := h.links + [memory])), s.row, s.forgets, [], [])])
    case WriteChunk(p, id) =>
      var d := s.drafts[p];
      var chunk := NextChunk(d, id);
      s.(store := s.store[id := chunk],
         shelf := s.shelf.(bodies := s.shelf.bodies + {id}, queued := s.shelf.queued + {id}),
         drafts := s.drafts[p := d.(head := WithChunk(c, d.head, chunk), left := d.left[1..])])
    case Commit(p) =>
      var d := s.drafts[p];
      if Swaps(s, d)
      then s.(row := Extended(d.read, Updated(d.head, d.saving), d.saving), log := s.log + [d.saving],
              drafts := s.drafts - {p})
      else s.(drafts := s.drafts - {p})
    case Dies(p) =>
      s.(drafts := s.drafts - {p}, forgetting := s.forgetting - {p},
         shelf := s.shelf.(fetching := s.shelf.fetching - {p}))
    case _ => ApplyShelf(c, s, step)
  }

  function NextChunk(d: Draft, id: Id): Chunk
    requires d.left != []
  {
    Chunk.Chunk(id, d.head.id, |d.head.chunks|, d.left[0])
  }

  ghost predicate RunTo(c: Codec, session: Id, s: State, steps: seq<Step>, end: State)
    decreases |steps|
  {
    if steps == [] then end == s
    else Enabled(c, s, steps[0]) && RunTo(c, session, Apply(c, session, s, steps[0]), steps[1..], end)
  }

  // ---------- what every run keeps ----------

  /** The `i`-th head of a lineage is version `i + 1` and its transcript is the first `i + 1` saves. */
  ghost predicate Committed(c: Codec, session: Id, l: Lineage, store: Store, i: nat)
    requires i < |l.heads| && |l.saves| == |l.heads|
  {
    && l.heads[i].id == session
    && l.heads[i].version == i + 1
    && Settled(c, l.heads[i], store)
    && Said(l.heads[i].chunks, store) == Flatten(l.saves[..i + 1])
    && (i > 0 ==> l.heads[i - 1].chunks <= l.heads[i].chunks)
    && Linked(if i == 0 then [] else l.heads[i - 1].links, l.heads[i].links, l.saves[i])
  }

  /** A save leaves the links as they are; a link is one memory more, and no message with it. */
  ghost predicate Linked(before: seq<Id>, links: seq<Id>, saving: seq<Message>) {
    links == before || (saving == [] && before <= links && |links| == |before| + 1)
  }

  ghost predicate LineageOk(c: Codec, session: Id, l: Lineage, store: Store) {
    && |l.saves| == |l.heads|
    && forall i {:trigger Committed(c, session, l, store, i)} | 0 <= i < |l.heads| :: Committed(c, session, l, store, i)
  }

  /** The chunk list a draft started from. */
  function BaseChunks(l: Lineage): seq<ChunkRef> {
    if l.heads == [] then [] else l.heads[|l.heads| - 1].chunks
  }

  function BaseLinks(l: Lineage): seq<Id> {
    if l.heads == [] then [] else l.heads[|l.heads| - 1].links
  }

  /** A draft continues the row it read, whatever has become of that row since. */
  ghost predicate DraftOk(c: Codec, session: Id, store: Store, d: Draft) {
    && LineageOk(c, session, d.read, store)
    && d.head.version == From(d) + 1 && d.head.id == session
    && BaseChunks(d.read) <= d.head.chunks && Linked(BaseLinks(d.read), d.head.links, d.saving)
    && Consistent(c, d.head, store)
    && Said(d.head.chunks, store) + Flatten(d.left) == Flatten(d.read.saves) + d.saving
    && d.head.headMessage == LastId(Flatten(d.read.saves))
    && (forall g <- d.left :: g != [])
  }

  /** Until the row is next forgotten it only moves on: at the version a draft read, it is the row the draft read. */
  ghost predicate Current(s: State, d: Draft) {
    && d.since <= s.forgets
    && (d.since == s.forgets ==> From(d) <= |s.row.heads|)
    && (d.since == s.forgets && From(d) == |s.row.heads| ==> d.read == s.row)
  }

  ghost predicate Good(c: Codec, session: Id, s: State, p: nat) {
    p in s.drafts && DraftOk(c, session, s.store, s.drafts[p]) && Current(s, s.drafts[p])
  }

  ghost predicate DraftsOk(c: Codec, session: Id, s: State) {
    forall p {:trigger Good(c, session, s, p)} | p in s.drafts :: Good(c, session, s, p)
  }

  ghost predicate Inv(c: Codec, session: Id, s: State) {
    && LineageOk(c, session, s.row, s.store) && DraftsOk(c, session, s)
    && (s.forgets == 0 ==> s.row.saves == s.log)
    && Kept(s)
  }

  /** Every chunk ever written is on the device, unless some forgetting set out to drop it. */
  ghost predicate Kept(s: State) {
    && s.store.Keys <= s.shelf.bodies + s.named
    && forall p <- s.forgetting :: Elements(s.forgetting[p].left) <= s.named
  }

  lemma CreateKeeps(c: Codec, session: Id, s: State, step: Step)
    requires Inv(c, session, s) && Enabled(c, s, step) && step.Create?
    ensures Inv(c, session, Apply(c, session, s, step))
  {
    var next := Apply(c, session, s, step);
    DraftsStay(c, session, s, next, step.p);
    GroupsFilled(c.measure, step.messages, step.groups);
    assert [] + step.messages == step.messages;
    assert Good(c, session, next, step.p);
  }

  lemma GroupsFilled(measure: Message -> nat, messages: seq<Message>, groups: seq<seq<Message>>)
    requires Greedy(measure, messages, CHUNK_TARGET_BYTES, groups)
    ensures forall g <- groups :: g != []
  {
    forall g <- groups ensures g != [] {
      assert Fits(measure, CHUNK_TARGET_BYTES, g);
    }
  }

  /** A step that leaves the row where it is leaves the other drafts as they were. */
  lemma DraftsStay(c: Codec, session: Id, s: State, next: State, p: nat)
    requires DraftsOk(c, session, s)
    requires next.row == s.row && next.forgets == s.forgets && next.store == s.store
    requires next.drafts - {p} == s.drafts - {p}
    ensures forall q {:trigger Good(c, session, next, q)} | q in next.drafts && q != p :: Good(c, session, next, q)
  {
    forall q | q in next.drafts && q != p ensures Good(c, session, next, q) {
      assert q in next.drafts - {p};
      assert q in s.drafts && next.drafts[q] == s.drafts[q];
      assert Good(c, session, s, q);
    }
  }

  /** A writer that opens the stored head starts from exactly what has been committed. */
  lemma ReopenedOk(c: Codec, session: Id, l: Lineage, store: Store, since: nat, h: Head, saving: seq<Message>,
                   left: seq<seq<Message>>)
    requires LineageOk(c, session, l, store) && Stored(l).Some? && Flatten(left) == saving && forall g <- left :: g != []
    requires h == Reopened(Stored(l).value.(links := h.links)) && Linked(Stored(l).value.links, h.links, saving)
    ensures DraftOk(c, session, store, Draft(h, l, since, saving, left))
  {
    var n := |l.heads|;
    assert Committed(c, session, l, store, n - 1);
    assert l.saves[..n] == l.saves;
  }

  lemma OpenKeeps(c: Codec, session: Id, s: State, step: Step)
    requires Inv(c, session, s) && Enabled(c, s, step) && (step.Append? || step.LinkMemory?)
    ensures Inv(c, session, Apply(c, session, s, step))
  {
    var next := Apply(c, session, s, step);
    DraftsStay(c, session, s, next, step.p);
    if step.Append? {
      GroupsFilled(c.measure, step.messages, step.groups);
    }
    var d := next.drafts[step.p];
    ReopenedOk(c, session, s.row, s.store, s.forgets, d.head, d.saving, d.left);
  }

  lemma LineageStays(c: Codec, session: Id, l: Lineage, store: Store, chunk: Chunk)
    requires LineageOk(c, session, l, store) && chunk.id !in store
    ensures LineageOk(c, session, l, store[chunk.id := chunk])
  {
    var grown := store[chunk.id := chunk];
    forall i | 0 <= i < |l.heads| ensures Committed(c, session, l, grown, i) {
      assert Committed(c, session, l, store, i);
      GrownStays(c, l.heads[i], store, chunk);
    }
  }

  lemma DraftGrown(c: Codec, session: Id, store: Store, d: Draft, chunk: Chunk)
    requires DraftOk(c, session, store, d) && chunk.id !in store
    ensures DraftOk(c, session, store[chunk.id := chunk], d)
  {
    LineageStays(c, session, d.read, store, chunk);
    GrownStays(c, d.head, store, chunk);
  }

  lemma DraftWritten(c: Codec, session: Id, store: Store, d: Draft, id: Id)
    requires DraftOk(c, session, store, d) && d.left != [] && id !in store
    ensures var chunk := NextChunk(d, id);
      DraftOk(c, session, store[id := chunk], d.(head := WithChunk(c, d.head, chunk), left := d.left[1..]))
  {
    var chunk := NextChunk(d, id);
    assert d.left[0] in d.left;
    LineageStays(c, session, d.read, store, chunk);
    ChunkAppends(c, d.head, store, chunk);
    Regroup(Said(d.head.chunks, store), d.left, Flatten(d.read.saves) + d.saving);
    assert d.head.chunks <= WithChunk(c, d.head, chunk).chunks;
    forall g <- d.left[1..] ensures g != [] {
      assert g in d.left;
    }
  }

  lemma Regroup(said: seq<Message>, left: seq<seq<Message>>, total: seq<Message>)
    requires left != [] && said + Flatten(left) == total
    ensures (said + left[0]) + Flatten(left[1..]) == total
  {
  }

  lemma WriteKeeps(c: Codec, session: Id, s: State, p: nat, id: Id)
    requires Inv(c, session, s) && Enabled(c, s, WriteChunk(p, id))
    ensures Inv(c, session, Apply(c, session, s, WriteChunk(p, id)))
  {
    var next := Apply(c, session, s, WriteChunk(p, id));
    var chunk := NextChunk(s.drafts[p], id);
    LineageStays(c, session, s.row, s.store, chunk);
    forall q | q in next.drafts
      ensures Good(c, session, next, q)
    {
      assert Good(c, session, s, q);
      if q == p {
        DraftWritten(c, session, s.store, s.drafts[p], id);
      } else {
        DraftGrown(c, session, s.store, s.drafts[q], chunk);
      }
    }
  }

  /** A finished draft commits to a head that extends the row it read by exactly its own save. */
  lemma CommitOk(c: Codec, session: Id, store: Store, d: Draft)
    requires DraftOk(c, session, store, d) && d.left == []
    ensures LineageOk(c, session, Extended(d.read, Updated(d.head, d.saving), d.saving), store)
  {
    var next := Extended(d.read, Updated(d.head, d.saving), d.saving);
    NextCommitted(c, session, store, d, next);
    OneMoreCommitted(c, session, store, d.read, next);
  }

  lemma OneMoreCommitted(c: Codec, session: Id, store: Store, l: Lineage, next: Lineage)
    requires LineageOk(c, session, l, store) && |next.saves| == |next.heads| == |l.heads| + 1
    requires l.heads <= next.heads && l.saves <= next.saves && Committed(c, session, next, store, |l.heads|)
    ensures LineageOk(c, session, next, store)
  {
    forall i | 0 <= i < |l.heads| ensures Committed(c, session, next, store, i) {
      StillCommitted(c, session, store, l, next, i);
    }
  }

  lemma StillCommitted(c: Codec, session: Id, store: Store, l: Lineage, next: Lineage, i: nat)
    requires LineageOk(c, session, l, store) && i < |l.heads| && |next.saves| == |next.heads|
    requires l.heads <= next.heads && l.saves <= next.saves
    ensures Committed(c, session, next, store, i)
  {
    assert Committed(c, session, l, store, i);
    assert next.saves[..i + 1] == l.saves[..i + 1];
  }

  lemma NextCommitted(c: Codec, session: Id, store: Store, d: Draft, next: Lineage)
    requires DraftOk(c, session, store, d) && d.left == []
    requires next == Extended(d.read, Updated(d.head, d.saving), d.saving)
    ensures |next.saves| == |next.heads| && Committed(c, session, next, store, |d.read.heads|)
  {
    assert next.saves[..|next.saves|] == next.saves;
    FlattenOne(d.read.saves, d.saving);
    FinishedSettles(c, d.head, Flatten(d.read.saves), d.saving, store);
  }

  lemma FinishedSettles(c: Codec, h: Head, said: seq<Message>, saving: seq<Message>, store: Store)
    requires Consistent(c, h, store) && Said(h.chunks, store) + [] == said + saving && h.headMessage == LastId(said)
    ensures Settled(c, Updated(h, saving), store) && Said(h.chunks, store) == said + saving
  {
    assert Said(h.chunks, store) + [] == Said(h.chunks, store);
  }

  lemma CommitKeeps(c: Codec, session: Id, s: State, p: nat)
    requires Inv(c, session, s) && Enabled(c, s, Commit(p))
    ensures Inv(c, session, Apply(c, session, s, Commit(p)))
  {
    var next := Apply(c, session, s, Commit(p));
    assert Good(c, session, s, p);
    if Swaps(s, s.drafts[p]) {
      SwapKeeps(c, session, s, p, next);
    } else {
      DraftsStay(c, session, s, next, p);
    }
  }

  lemma SwapKeeps(c: Codec, session: Id, s: State, p: nat, next: State)
    requires Inv(c, session, s) && Enabled(c, s, Commit(p)) && Swaps(s, s.drafts[p])
    requires next == Apply(c, session, s, Commit(p))
    ensures Inv(c, session, next)
  {
    var d := s.drafts[p];
    assert Good(c, session, s, p);
    CommitOk(c, session, s.store, d);
    RowVersion(c, session, s);
    assert |next.row.heads| > |s.row.heads| || s.row.heads == [];
    forall q | q in next.drafts ensures Good(c, session, next, q) {
      assert Good(c, session, s, q);
    }
  }

  /** The row's version counts the heads behind it. */
  lemma RowVersion(c: Codec, session: Id, s: State)
    requires LineageOk(c, session, s.row, s.store)
    ensures Stored(s.row).Some? ==> Stored(s.row).value.version == |s.row.heads|
  {
    if Stored(s.row).Some? {
      assert Committed(c, session, s.row, s.store, |s.row.heads| - 1);
    }
  }

  lemma DiesKeeps(c: Codec, session: Id, s: State, p: nat)
    requires Inv(c, session, s)
    ensures Inv(c, session, Apply(c, session, s, Dies(p)))
  {
    DraftsStay(c, session, s, Apply(c, session, s, Dies(p)), p);
  }

  /** Steps that touch neither drafts nor chunks, nor anything of the row but to drop it. */
  lemma ShelfKeeps(c: Codec, session: Id, s: State, step: Step)
    requires Inv(c, session, s) && Enabled(c, s, step)
    ensures Inv(c, session, ApplyShelf(c, s, step))
  {
    var next := ApplyShelf(c, s, step);
    forall q | q in next.drafts
      ensures Good(c, session, next, q)
    {
      assert Good(c, session, s, q);
    }
    ShelfKept(c, s, step);
  }

  lemma ShelfKept(c: Codec, s: State, step: Step)
    requires Kept(s) && Enabled(c, s, step)
    ensures Kept(ApplyShelf(c, s, step))
  {
    if step.DropBody? || step.DropEntry? {
      ElementsSplit(s.forgetting[step.p].left);
    }
  }

  lemma StepKeeps(c: Codec, session: Id, s: State, step: Step)
    requires Inv(c, session, s) && Enabled(c, s, step)
    ensures Inv(c, session, Apply(c, session, s, step))
  {
    match step
    case Create(_, _, _) => CreateKeeps(c, session, s, step);
    case Append(_, _, _) => OpenKeeps(c, session, s, step);
    case LinkMemory(_, _) => OpenKeeps(c, session, s, step);
    case WriteChunk(p, id) => WriteKeeps(c, session, s, p, id);
    case Commit(p) => CommitKeeps(c, session, s, p);
    case Dies(p) => DiesKeeps(c, session, s, p);
    case _ => ShelfKeeps(c, session, s, step);
  }

  lemma {:induction false} RunKeeps(c: Codec, session: Id, s: State, steps: seq<Step>, end: State)
    requires Inv(c, session, s) && RunTo(c, session, s, steps, end)
    ensures Inv(c, session, end)
    decreases |steps|
  {
    if steps != [] {
      StepKeeps(c, session, s, steps[0]);
      RunKeeps(c, session, Apply(c, session, s, steps[0]), steps[1..], end);
    }
  }

  lemma {:induction false} NeverForgotten(c: Codec, session: Id, s: State, steps: seq<Step>, end: State)
    requires RunTo(c, session, s, steps, end)
    ensures (forall step <- steps :: !step.DropHead?) ==> end.forgets == s.forgets
    ensures (forall step <- steps :: !step.BeginForget?) ==> end.named == s.named
    decreases |steps|
  {
    if steps != [] {
      assert steps[0] in steps && forall step <- steps[1..] :: step in steps;
      NeverForgotten(c, session, Apply(c, session, s, steps[0]), steps[1..], end);
    }
  }

  /**
   * However writers interleave, wherever they stop and whenever the session is forgotten, the versions
   * behind a stored head are 1, 2, 3, …; each chunk list extends the one before; the messages written
   * for it at each version are exactly the saves behind it, in commit order; the counts, sequence
   * numbers, last message and refs agree with the chunks; and a save keeps the links there are. While the row is never dropped, those saves
   * are all the saves anyone was told are committed: one that lost the race leaves no trace. A chunk
   * can be read unless some forgetting set out to drop it, so with none begun the transcript can.
   */
  lemma TranscriptIsTheCommittedSaves(c: Codec, session: Id, steps: seq<Step>, end: State, i: nat)
    requires RunTo(c, session, START, steps, end) && i < |end.row.heads|
    ensures |end.row.saves| == |end.row.heads|
    ensures end.row.heads[i].version == i + 1
    ensures i > 0 ==> end.row.heads[i - 1].chunks <= end.row.heads[i].chunks
    ensures Linked(if i == 0 then [] else end.row.heads[i - 1].links, end.row.heads[i].links, end.row.saves[i])
    ensures Said(end.row.heads[i].chunks, end.store) == Flatten(end.row.saves[..i + 1])
    ensures Settled(c, end.row.heads[i], end.store)
    ensures (forall step <- steps :: !step.DropHead?) ==> end.row.saves == end.log
    ensures forall r <- end.row.heads[i].chunks :: Readable(end.shelf, r.id) || r.id in end.named
    ensures (forall step <- steps :: !step.BeginForget?) ==> end.named == {}
  {
    RunKeeps(c, session, START, steps, end);
    assert Committed(c, session, end.row, end.store, i);
    RefsAreThere(c, session, end.row.heads[i].chunks, end.store);
    NeverForgotten(c, session, START, steps, end);
  }

  // ---------- links ----------

  /** No writer under way read the row before it was last forgotten. */
  ghost predicate AllSince(s: State) { forall p <- s.drafts :: s.drafts[p].since == s.forgets }

  /** Until it is dropped a row that no writer from before the last drop can replace only grows. */
  lemma RowGrowsBy(c: Codec, session: Id, s: State, step: Step)
    requires Inv(c, session, s) && Enabled(c, s, step) && !step.DropHead? && AllSince(s)
    ensures var next := Apply(c, session, s, step);
      s.row.heads <= next.row.heads && AllSince(next)
  {
    RowVersion(c, session, s);
    if step.Commit? {
      assert Good(c, session, s, step.p);
    }
  }

  lemma {:induction false} RowGrows(c: Codec, session: Id, s: State, steps: seq<Step>, end: State)
    requires Inv(c, session, s) && RunTo(c, session, s, steps, end) && AllSince(s)
    requires forall step <- steps :: !step.DropHead?
    ensures s.row.heads <= end.row.heads && Inv(c, session, end)
    decreases |steps|
  {
    if steps != [] {
      assert steps[0] in steps && forall step <- steps[1..] :: step in steps;
      RowGrowsBy(c, session, s, steps[0]);
      StepKeeps(c, session, s, steps[0]);
      RowGrows(c, session, Apply(c, session, s, steps[0]), steps[1..], end);
    }
  }

  lemma {:induction false} LinksGrow(c: Codec, session: Id, l: Lineage, store: Store, i: nat, j: nat)
    requires LineageOk(c, session, l, store) && i <= j < |l.heads|
    ensures l.heads[i].links <= l.heads[j].links
    decreases j
  {
    assert Committed(c, session, l, store, j);
    if i < j {
      LinksGrow(c, session, l, store, i, j - 1);
    }
  }

  /** When the row was never dropped no writer can have read it before that. */
  lemma NeverDropped(c: Codec, session: Id, before: seq<Step>, s: State)
    requires RunTo(c, session, START, before, s) && forall step <- before :: !step.DropHead?
    ensures AllSince(s)
  {
    RunKeeps(c, session, START, before, s);
    NeverForgotten(c, session, START, before, s);
    forall p <- s.drafts ensures s.drafts[p].since == s.forgets {
      assert Good(c, session, s, p);
    }
  }

  /**
   * However writers interleave from any state they can reach, what the stored head links stays linked
   * until the row is dropped: always when it was never dropped before, and otherwise once no writer
   * under way read it before the last drop.
   */
  lemma LinksStay(c: Codec, session: Id, before: seq<Step>, s: State, steps: seq<Step>, end: State)
    requires RunTo(c, session, START, before, s) && RunTo(c, session, s, steps, end)
    requires (forall step <- before :: !step.DropHead?) || AllSince(s)
    requires (forall step <- steps :: !step.DropHead?) && Stored(s.row).Some?
    ensures Stored(end.row).Some? && Stored(s.row).value.links <= Stored(end.row).value.links
  {
    RunKeeps(c, session, START, before, s);
    if forall step <- before :: !step.DropHead? {
      NeverDropped(c, session, before, s);
    }
    RowGrows(c, session, s, steps, end);
    LinksGrow(c, session, end.row, end.store, |s.row.heads| - 1, |end.row.heads| - 1);
  }

  /**
   * The one step short of a drop that takes a link away, in any state that can be reached: a commit by a
   * writer that read the row before a drop, over a row that has come back at the version it read.
   */
  lemma LinkIsLostExactly(c: Codec, session: Id, before: seq<Step>, s: State, step: Step, memory: Id)
    requires RunTo(c, session, START, before, s) && Enabled(c, s, step) && !step.DropHead?
    requires Stored(s.row).Some? && memory in Stored(s.row).value.links
    ensures var next := Apply(c, session, s, step);
      Stored(next.row).Some?
      && (memory !in Stored(next.row).value.links
          <==> step.Commit? && var d := s.drafts[step.p];
               d.since < s.forgets && |s.row.heads| == From(d) && memory !in d.head.links)
  {
    RunKeeps(c, session, START, before, s);
    RowVersion(c, session, s);
    if step.Commit? {
      assert Good(c, session, s, step.p);
    }
  }

  // ---------- what forgetting a session does to writers under way ----------

  /**
   * When a commit goes through, and over what. Unless the row was forgotten since the writer read it,
   * the commit goes through exactly when the row is the one it read. Otherwise it goes through exactly
   * when there is no row, or one at the version it read, and then that row need not be what it read.
   */
  lemma CommitsOverExactly(c: Codec, session: Id, steps: seq<Step>, s: State, p: nat)
    requires RunTo(c, session, START, steps, s) && p in s.drafts && s.drafts[p].left == [] && From(s.drafts[p]) > 0
    ensures var d := s.drafts[p];
      && (Swaps(s, d) <==> if d.since == s.forgets then s.row == d.read
                           else s.row == NO_ROW || |s.row.heads| == From(d))
      && (Swaps(s, d) && s.row != d.read
          <==> d.since < s.forgets && s.row != d.read && (s.row == NO_ROW || |s.row.heads| == From(d)))
  {
    RunKeeps(c, session, START, steps, s);
    RowVersion(c, session, s);
    assert Good(c, session, s, p);
  }

  lemma {:induction false} RunOn(c: Codec, session: Id, s: State, steps: seq<Step>, mid: State, step: Step)
    requires RunTo(c, session, s, steps, mid) && Enabled(c, mid, step)
    ensures RunTo(c, session, s, steps + [step], Apply(c, session, mid, step))
    decreases |steps|
  {
    if steps == [] {
      assert steps + [step] == [step] && [step][1..] == [];
    } else {
      assert (steps + [step])[1..] == steps[1..] + [step];
      RunOn(c, session, Apply(c, session, s, steps[0]), steps[1..], mid, step);
    }
  }

  /** One writer appending one chunk, from reading the row to committing, with nothing else in between. */
  ghost function Saved(c: Codec, l: Lineage, since: nat, m: seq<Message>): Draft
    requires Stored(l).Some?
  {
    Draft(Reopened(Stored(l).value), l, since, m, [m])
  }

  ghost function Finished(c: Codec, d: Draft, id: Id): Draft
    requires d.left != []
  {
    d.(head := WithChunk(c, d.head, NextChunk(d, id)), left := d.left[1..])
  }

  ghost function After(c: Codec, d: Draft, id: Id): Lineage
    requires d.left != []
  {
    Extended(d.read, Updated(Finished(c, d, id).head, d.saving), d.saving)
  }

  /** Writing the one chunk and committing, when the swap will go through. */
  lemma WritesAndCommits(c: Codec, session: Id, s: State, p: nat, id: Id) returns (steps: seq<Step>, end: State)
    requires p in s.drafts && |s.drafts[p].left| == 1 && id !in s.store && Swaps(s, s.drafts[p])
    ensures RunTo(c, session, s, steps, end) && steps == [WriteChunk(p, id), Commit(p)]
    ensures end.row == After(c, s.drafts[p], id) && end.log == s.log + [s.drafts[p].saving]
    ensures end.drafts == s.drafts - {p} && end.forgets == s.forgets && end.store.Keys == s.store.Keys + {id}
    ensures end.shelf == s.shelf.(bodies := s.shelf.bodies + {id}, queued := s.shelf.queued + {id})
  {
    var mid := Apply(c, session, s, WriteChunk(p, id));
    end := Apply(c, session, mid, Commit(p));
    steps := [WriteChunk(p, id), Commit(p)];
    assert steps[1..] == [Commit(p)] && [Commit(p)][1..] == [];
    assert RunTo(c, session, mid, [Commit(p)], end);
  }

  lemma {:induction false} RunThen(c: Codec, session: Id, s: State, a: seq<Step>, mid: State, b: seq<Step>, end: State)
    requires RunTo(c, session, s, a, mid) && RunTo(c, session, mid, b, end)
    ensures RunTo(c, session, s, a + b, end)
    decreases |a|
  {
    if a == [] {
      assert a + b == b;
    } else {
      assert (a + b)[1..] == a[1..] + b;
      RunThen(c, session, Apply(c, session, s, a[0]), a[1..], mid, b, end);
    }
  }

  /** What a session loses of its shelf when it is forgotten: these bodies and these entries, and no row of the queue. */
  function Without(shelf: Shelf, ids: set<Id>): Shelf {
    shelf.(bodies := shelf.bodies - ids, listed := shelf.listed - ids)
  }

  lemma {:induction false} DropsEach(c: Codec, session: Id, s: State, p: nat) returns (steps: seq<Step>, end: State)
    requires p in s.forgetting && !s.forgetting[p].bodyGone
    ensures RunTo(c, session, s, steps, end)
    ensures end == s.(shelf := Without(s.shelf, Elements(s.forgetting[p].left)),
                      forgetting := s.forgetting[p := Drops([], false)])
    decreases |s.forgetting[p].left|
  {
    var left := s.forgetting[p].left;
    if left == [] {
      steps, end := [], s;
      assert Without(s.shelf, Elements(left)) == s.shelf && s.forgetting[p := Drops([], false)] == s.forgetting;
    } else {
      var half := Apply(c, session, s, DropBody(p));
      var next := Apply(c, session, half, DropEntry(p));
      var rest;
      rest, end := DropsEach(c, session, next, p);
      RunOn(c, session, s, [], s, DropBody(p));
      RunOn(c, session, s, [] + [DropBody(p)], half, DropEntry(p));
      steps := [] + [DropBody(p)] + [DropEntry(p)] + rest;
      RunThen(c, session, s, [] + [DropBody(p)] + [DropEntry(p)], next, rest, end);
      ElementsSplit(left);
    }
  }

  /** One process forgets the session from reading its head to dropping it, with nothing else in between. */
  lemma Forgets(c: Codec, session: Id, s: State, p: nat) returns (steps: seq<Step>, end: State)
    requires Stored(s.row).Some?
    ensures RunTo(c, session, s, steps, end)
    ensures end.row == NO_ROW && end.log == s.log && end.forgets == s.forgets + 1
    ensures end.store == s.store && end.drafts == s.drafts
    ensures end.shelf == Without(s.shelf, Elements(IdsOf(Stored(s.row).value.chunks)))
  {
    var begun := Apply(c, session, s, BeginForget(p));
    var drops, bare := DropsEach(c, session, begun, p);
    end := Apply(c, session, bare, DropHead(p));
    RunOn(c, session, s, [], s, BeginForget(p));
    RunThen(c, session, s, [] + [BeginForget(p)], begun, drops, bare);
    RunOn(c, session, s, [] + [BeginForget(p)] + drops, bare, DropHead(p));
    steps := [] + [BeginForget(p)] + drops + [DropHead(p)];
  }

  /**
   * A session forgotten under a writer comes back when it commits: the head names every chunk there was
   * and the writer's own, and of these only the writer's own can be read.
   */
  lemma ForgottenComesBack(c: Codec, session: Id, s: State, p: nat, q: nat, m: seq<Message>, id: Id)
    returns (forgets: seq<Step>, end: State)
    requires LineageOk(c, session, s.row, s.store) && Stored(s.row).Some?
    requires Greedy(c.measure, m, CHUNK_TARGET_BYTES, [m]) && id !in s.store
    ensures RunTo(c, session, s, [Append(p, m, [m])] + forgets + [WriteChunk(p, id), Commit(p)], end)
    ensures Stored(end.row).Some? && end.row.saves == s.row.saves + [m]
    ensures var was, now := Stored(s.row).value.chunks, Stored(end.row).value.chunks;
      && |now| == |was| + 1 && now[..|was|] == was && now[|was|].id == id
      && (forall r <- was :: !Readable(end.shelf, r.id)) && Readable(end.shelf, id)
  {
    var was := Stored(s.row).value.chunks;
    var read := Apply(c, session, s, Append(p, m, [m]));
    var gone;
    forgets, gone := Forgets(c, session, read, q);
    RunOn(c, session, s, [], s, Append(p, m, [m]));
    RunThen(c, session, s, [] + [Append(p, m, [m])], read, forgets, gone);
    var rest;
    rest, end := WritesAndCommits(c, session, gone, p, id);
    RunThen(c, session, s, [] + [Append(p, m, [m])] + forgets, gone, rest, end);
    assert [] + [Append(p, m, [m])] == [Append(p, m, [m])];
    HeadIsThere(c, session, s);
    forall r <- was ensures !Readable(end.shelf, r.id) {
      var i :| 0 <= i < |was| && was[i] == r;
      assert IdsOf(was)[i] == r.id && IdsOf(was)[i] in IdsOf(was);
    }
  }

  lemma HeadIsThere(c: Codec, session: Id, s: State)
    requires LineageOk(c, session, s.row, s.store) && Stored(s.row).Some?
    ensures forall r <- Stored(s.row).value.chunks :: r.id in s.store
  {
    assert Committed(c, session, s.row, s.store, |s.row.heads| - 1);
    RefsAreThere(c, session, Stored(s.row).value.chunks, s.store);
  }

  // ---------- what of a forgotten session can be read again ----------

  /** A chunk is readable, or waits in the queue, or some reader has found its entry and not yet kept its body. */
  ghost predicate Recoverable(shelf: Shelf, id: Id) {
    Readable(shelf, id) || id in shelf.queued || id in shelf.fetching.Values
  }

  ghost predicate AllReadable(shelf: Shelf, refs: seq<ChunkRef>) { forall r <- refs :: Readable(shelf, r.id) }

  /** A chunk already written and not recoverable stays so: no id is written twice. */
  lemma StaysLost(c: Codec, session: Id, s: State, step: Step, id: Id)
    requires Enabled(c, s, step) && id in s.store && !Recoverable(s.shelf, id)
    ensures var next := Apply(c, session, s, step); id in next.store && !Recoverable(next.shelf, id)
  {
  }

  lemma {:induction false} LostForGood(c: Codec, session: Id, s: State, steps: seq<Step>, end: State, id: Id)
    requires RunTo(c, session, s, steps, end) && id in s.store && !Recoverable(s.shelf, id)
    ensures !Recoverable(end.shelf, id)
    decreases |steps|
  {
    if steps != [] {
      StaysLost(c, session, s, steps[0], id);
      LostForGood(c, session, Apply(c, session, s, steps[0]), steps[1..], end, id);
    }
  }

  /** One flush or one finished read brings a recoverable chunk back, and takes no other away. */
  lemma Recovers(c: Codec, session: Id, s: State, id: Id) returns (steps: seq<Step>, end: State)
    requires Recoverable(s.shelf, id)
    ensures RunTo(c, session, s, steps, end) && Readable(end.shelf, id)
    ensures forall x :: Readable(s.shelf, x) ==> Readable(end.shelf, x)
    ensures forall x :: Recoverable(s.shelf, x) ==> Recoverable(end.shelf, x)
  {
    if Readable(s.shelf, id) {
      return [], s;
    }
    var step;
    if id in s.shelf.queued {
      step := Catalogue(id);
    } else {
      var p :| p in s.shelf.fetching && s.shelf.fetching[p] == id;
      step := Keep(p);
    }
    steps, end := [] + [step], Apply(c, session, s, step);
    RunOn(c, session, s, [], s, step);
    forall x | Recoverable(s.shelf, x) ensures Recoverable(end.shelf, x) {
      if step.Keep? && x in s.shelf.fetching.Values && x != id {
        var q :| q in s.shelf.fetching && s.shelf.fetching[q] == x;
        assert q in end.shelf.fetching && end.shelf.fetching[q] == x;
      }
    }
  }

  lemma {:induction false} RecoversAll(c: Codec, session: Id, s: State, refs: seq<ChunkRef>)
    returns (steps: seq<Step>, end: State)
    requires forall r <- refs :: Recoverable(s.shelf, r.id)
    ensures RunTo(c, session, s, steps, end) && AllReadable(end.shelf, refs)
    ensures forall x :: Readable(s.shelf, x) ==> Readable(end.shelf, x)
    decreases |refs|
  {
    if refs == [] {
      return [], s;
    }
    var first, mid := Recovers(c, session, s, refs[0].id);
    var rest;
    rest, end := RecoversAll(c, session, mid, refs[1..]);
    steps := first + rest;
    RunThen(c, session, s, first, mid, rest, end);
    assert refs == [refs[0]] + refs[1..];
  }

  /** Some run from here ends with every one of these chunks readable. */
  ghost predicate CanBeRead(c: Codec, session: Id, s: State, refs: seq<ChunkRef>) {
    exists steps, end :: RunTo(c, session, s, steps, end) && AllReadable(end.shelf, refs)
  }

  /**
   * When a head's transcript, forgotten or not, can still come to be read: exactly when each chunk it
   * names is readable now, or waits in the queue, or is being fetched by some reader.
   */
  lemma CanBeReadExactly(c: Codec, session: Id, s: State, refs: seq<ChunkRef>)
    requires forall r <- refs :: r.id in s.store
    ensures CanBeRead(c, session, s, refs) <==> forall r <- refs :: Recoverable(s.shelf, r.id)
  {
    if forall r <- refs :: Recoverable(s.shelf, r.id) {
      var steps, end := RecoversAll(c, session, s, refs);
    } else {
      var r :| r in refs && !Recoverable(s.shelf, r.id);
      forall steps, end | RunTo(c, session, s, steps, end) ensures !AllReadable(end.shelf, refs) {
        LostForGood(c, session, s, steps, end, r.id);
      }
    }
  }

  /**
   * Forgetting a row under two writers can also erase a save one of them was told is committed: the
   * first to commit puts back the version the second read, and the second then replaces it unseen.
   */
  lemma CommittedSaveIsErased(c: Codec, session: Id, s: State, m: seq<seq<Message>>, ids: seq<Id>)
    returns (steps: seq<Step>, end: State)
    requires LineageOk(c, session, s.row, s.store) && Stored(s.row).Some? && |m| == |ids| == 3
    requires forall i :: 0 <= i < 3 ==> Greedy(c.measure, m[i], CHUNK_TARGET_BYTES, [m[i]]) && ids[i] !in s.store
    requires ids[0] != ids[1] && ids[0] != ids[2] && ids[1] != ids[2]
    ensures RunTo(c, session, s, steps, end)
    ensures end.log == s.log + [m[0]] + [m[1]] + [m[2]]
    ensures end.row.saves == s.row.saves + [m[0]] + [m[2]]
  {
    RowVersion(c, session, s);
    // Writer 1 reads; writer 0 saves in full; writer 2 reads what writer 0 saved; the row is forgotten.
    var a := Apply(c, session, s, Append(1, m[1], [m[1]]));
    RunOn(c, session, s, [], s, Append(1, m[1], [m[1]]));
    var first, b := AppendsOnce(c, session, a, 0, m[0], ids[0]);
    RunThen(c, session, s, [] + [Append(1, m[1], [m[1]])], a, first, b);
    var early := [] + [Append(1, m[1], [m[1]])] + first;
    var e := Apply(c, session, b, Append(2, m[2], [m[2]]));
    RunOn(c, session, s, early, b, Append(2, m[2], [m[2]]));
    var forgets, f := Forgets(c, session, e, 3);
    RunThen(c, session, s, early + [Append(2, m[2], [m[2]])], e, forgets, f);
    // Writer 1 then writer 2 finish.
    var late;
    late, end := BothCommit(c, session, f, s.row.heads, ids);
    steps := early + [Append(2, m[2], [m[2]])] + forgets + late;
    RunThen(c, session, s, early + [Append(2, m[2], [m[2]])] + forgets, f, late, end);
  }

  /**
   * And it can take back a link: one writer's link is committed over the dropped row, at the version
   * another read before the drop, and that one then replaces it without the link.
   */
  lemma CommittedLinkIsErased(c: Codec, session: Id, s: State, memory: Id, m: seq<Message>, ids: seq<Id>)
    returns (steps: seq<Step>, mid: State, last: Step, end: State)
    requires LineageOk(c, session, s.row, s.store) && Stored(s.row).Some? && memory !in Stored(s.row).value.links
    requires Greedy(c.measure, m, CHUNK_TARGET_BYTES, [m]) && |ids| == 1 && ids[0] !in s.store
    ensures RunTo(c, session, s, steps, mid) && Stored(mid.row).Some? && memory in Stored(mid.row).value.links
    ensures Enabled(c, mid, last) && end == Apply(c, session, mid, last) && !last.DropHead?
    ensures Stored(end.row).Some? && memory !in Stored(end.row).value.links
  {
    RowVersion(c, session, s);
    // Writer 1 opens the head to link; writer 0 saves in full; writer 2 opens that; the row is forgotten.
    var a := Apply(c, session, s, LinkMemory(1, memory));
    RunOn(c, session, s, [], s, LinkMemory(1, memory));
    var first, b := AppendsOnce(c, session, a, 0, m, ids[0]);
    RunThen(c, session, s, [] + [LinkMemory(1, memory)], a, first, b);
    var early := [] + [LinkMemory(1, memory)] + first;
    var e := Apply(c, session, b, Append(2, [], []));
    RunOn(c, session, s, early, b, Append(2, [], []));
    var forgets, f := Forgets(c, session, e, 3);
    RunThen(c, session, s, early + [Append(2, [], [])], e, forgets, f);
    // Writer 1 then writer 2 commit.
    mid, end := LinkThenReplace(c, session, f, memory);
    RunOn(c, session, s, early + [Append(2, [], [])] + forgets, f, Commit(1));
    steps, last := early + [Append(2, [], [])] + forgets + [Commit(1)], Commit(2);
  }

  lemma LinkThenReplace(c: Codec, session: Id, s: State, memory: Id) returns (mid: State, end: State)
    requires s.row == NO_ROW && 1 in s.drafts && 2 in s.drafts && s.drafts[1].left == s.drafts[2].left == []
    requires s.drafts[1].head.version == From(s.drafts[2])
    requires memory in s.drafts[1].head.links && memory !in s.drafts[2].head.links
    ensures mid == Apply(c, session, s, Commit(1)) && Enabled(c, mid, Commit(2))
    ensures end == Apply(c, session, mid, Commit(2))
    ensures Stored(mid.row).Some? && memory in Stored(mid.row).value.links
    ensures Stored(end.row).Some? && memory !in Stored(end.row).value.links
  {
    mid := Apply(c, session, s, Commit(1));
    end := Apply(c, session, mid, Commit(2));
  }

  lemma AppendsOnce(c: Codec, session: Id, s: State, p: nat, m: seq<Message>, id: Id)
    returns (steps: seq<Step>, end: State)
    requires Stored(s.row).Some? && Stored(s.row).value.version == |s.row.heads|
    requires Greedy(c.measure, m, CHUNK_TARGET_BYTES, [m]) && id !in s.store
    ensures RunTo(c, session, s, steps, end)
    ensures |end.row.heads| == |s.row.heads| + 1 && end.row.saves == s.row.saves + [m] && end.log == s.log + [m]
    ensures end.drafts == s.drafts - {p} && end.forgets == s.forgets && end.store.Keys == s.store.Keys + {id}
    ensures Stored(end.row).value.links == Stored(s.row).value.links
  {
    var read := Apply(c, session, s, Append(p, m, [m]));
    RunOn(c, session, s, [], s, Append(p, m, [m]));
    var rest;
    rest, end := WritesAndCommits(c, session, read, p, id);
    steps := [] + [Append(p, m, [m])] + rest;
    RunThen(c, session, s, [] + [Append(p, m, [m])], read, rest, end);
  }

  /** With no row, the first of two writers puts back the version the second read, and the second replaces it. */
  lemma BothCommit(c: Codec, session: Id, s: State, heads: seq<Head>, ids: seq<Id>)
    returns (steps: seq<Step>, end: State)
    requires s.row == NO_ROW && 1 in s.drafts && 2 in s.drafts && |ids| == 3
    requires |s.drafts[1].left| == |s.drafts[2].left| == 1
    requires s.drafts[1].read.heads == heads && From(s.drafts[2]) == |heads| + 1
    requires s.drafts[1].head.version == |heads| + 1
    requires ids[1] !in s.store && ids[2] !in s.store && ids[1] != ids[2]
    ensures RunTo(c, session, s, steps, end)
    ensures end.log == s.log + [s.drafts[1].saving] + [s.drafts[2].saving]
    ensures end.row.saves == s.drafts[2].read.saves + [s.drafts[2].saving]
  {
    var one, h := WritesAndCommits(c, session, s, 1, ids[1]);
    var two;
    two, end := WritesAndCommits(c, session, h, 2, ids[2]);
    RunThen(c, session, s, one, h, two, end);
    steps := one + two;
  }
}
