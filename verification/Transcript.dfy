/** Reading a transcript a page at a time, by the id of the message to continue from. */
module Transcript {
  import opened Bytes
  import opened Records
  import opened Conversations

  type Store = map<Id, Chunk>

  function GroupsOf(refs: seq<ChunkRef>, chunks: Store): (groups: seq<seq<Message>>)
    requires forall r <- refs :: r.id in chunks
    ensures |groups| == |refs|
    ensures forall i :: 0 <= i < |refs| ==> groups[i] == chunks[refs[i].id].messages
  {
    seq(|refs|, i requires 0 <= i < |refs| => chunks[refs[i].id].messages)
  }

  /** The whole transcript these chunks make. */
  function TranscriptOf(refs: seq<ChunkRef>, chunks: Store): seq<Message>
    requires forall r <- refs :: r.id in chunks
  {
    Flatten(GroupsOf(refs, chunks))
  }

  /** Each ref says of its chunk what is so, and no chunk is empty. */
  ghost predicate Matches(c: Codec, refs: seq<ChunkRef>, chunks: Store) {
    && (forall r <- refs :: r.id in chunks)
    && (forall i :: 0 <= i < |refs| ==>
          chunks[refs[i].id].messages != [] && refs[i] == RefOf(c, chunks[refs[i].id], refs[i].seqNo))
  }

  /** No two messages share an id, and none after the first has an empty one. */
  ghost predicate UniqueIds(all: seq<Message>) {
    && (forall i :: 0 < i < |all| ==> all[i].id != [])
    && (forall i, j :: 0 <= i < j < |all| ==> all[i].id != all[j].id)
  }

  datatype Page =
    | Page(messages: seq<Message>, more: bool, next: Bytes)
    | Unreadable(at: nat)
    | NoSuchMessage

  /** The first message from `base` on that has this id; `base` itself when no id is given. */
  function At(all: seq<Message>, base: nat, from: Bytes): (k: nat)
    requires base <= |all|
    ensures base <= k <= |all|
    ensures from != [] ==> (forall i :: base <= i < k ==> all[i].id != from) && (k < |all| ==> all[k].id == from)
    ensures from == [] ==> k == base
    decreases |all| - base
  {
    if from == [] || base == |all| || all[base].id == from then base else At(all, base + 1, from)
  }

  /** Where a page that begins at `k` ends; a limit of zero or less is no limit. */
  function PageEnd(n: nat, k: nat, limit: int): (end: nat)
    ensures k <= n ==> k <= end <= n
  {
    if limit > 0 && k + limit < n then k + limit else n
  }

  /** A page that begins at `k`: as many messages as asked for, and where the next page begins. */
  function PageAt(all: seq<Message>, k: nat, from: Bytes, limit: int): Page
    requires k <= |all|
  {
    if from != [] && k == |all| then NoSuchMessage
    else
      var end := PageEnd(|all|, k, limit);
      Page(all[k..end], end < |all|, if end < |all| then all[end].id else [])
  }

  /** The first chunk that has this message at one of its ends, or the first chunk of all. */
  function StartAt(refs: seq<ChunkRef>, from: Bytes): (start: nat)
    ensures start == 0 || (start < |refs| && from != [] && (refs[start].first == from || refs[start].last == from))
  {
    var i := FirstEnd(refs, from);
    if from == [] || i == |refs| then 0 else i
  }

  function FirstEnd(refs: seq<ChunkRef>, from: Bytes): (i: nat)
    ensures i <= |refs|
    ensures forall j :: 0 <= j < i ==> refs[j].first != from && refs[j].last != from
    ensures i < |refs| ==> refs[i].first == from || refs[i].last == from
  {
    if refs == [] || refs[0].first == from || refs[0].last == from then 0 else 1 + FirstEnd(refs[1..], from)
  }

  /** Where a replay begins opening chunks. */
  method StartChunk(refs: seq<ChunkRef>, from: Bytes) returns (start: nat)
    ensures start == StartAt(refs, from)
  {
    if from == [] {
      return 0;
    }
    for i := 0 to |refs|
      invariant forall j :: 0 <= j < i ==> refs[j].first != from && refs[j].last != from
    {
      if refs[i].first == from || refs[i].last == from {
        return i;
      }
    }
    start := 0;
  }

  /** What has been gathered once a walk that began before message `base` stands before message `pos`. */
  ghost predicate Walking(all: seq<Message>, base: nat, from: Bytes, limit: int, pos: nat, started: bool,
                          out: seq<Message>)
  {
    && base <= pos <= |all|
    && (!started ==> from != [] && out == [] && At(all, base, from) >= pos)
    && (started ==>
          var k := At(all, base, from);
          k <= pos && out == all[k..pos] && (from != [] ==> k < pos) && (limit > 0 ==> |out| <= limit))
  }

  lemma StepOver(all: seq<Message>, base: nat, from: Bytes, limit: int, pos: nat)
    requires Walking(all, base, from, limit, pos, false, []) && pos < |all| && all[pos].id != from
    ensures Walking(all, base, from, limit, pos + 1, false, [])
  {
  }

  lemma StepInto(all: seq<Message>, base: nat, from: Bytes, limit: int, pos: nat, started: bool, out: seq<Message>)
    requires Walking(all, base, from, limit, pos, started, out) && pos < |all|
    requires (!started && all[pos].id == from) || started
    requires limit > 0 ==> |out| < limit
    ensures Walking(all, base, from, limit, pos + 1, true, out + [all[pos]])
  {
  }

  lemma Stops(all: seq<Message>, base: nat, from: Bytes, limit: int, pos: nat, started: bool, out: seq<Message>)
    requires Walking(all, base, from, limit, pos, started, out) && pos < |all| && limit > 0 && |out| >= limit
    ensures PageAt(all, At(all, base, from), from, limit) == Page(out, true, all[pos].id)
  {
  }

  lemma Ends(all: seq<Message>, base: nat, from: Bytes, limit: int, started: bool, out: seq<Message>)
    requires Walking(all, base, from, limit, |all|, started, out)
    ensures PageAt(all, At(all, base, from), from, limit) == if started then Page(out, false, []) else NoSuchMessage
  {
  }

  /** How many messages the chunks before `i` hold. */
  ghost function Before(refs: seq<ChunkRef>, chunks: Store, i: nat): nat
    requires i <= |refs| && forall r <- refs :: r.id in chunks
  {
    if i == 0 then 0 else Before(refs, chunks, i - 1) + |chunks[refs[i - 1].id].messages|
  }

  lemma {:induction false} BeforeGrows(refs: seq<ChunkRef>, chunks: Store, i: nat, j: nat)
    requires i <= j <= |refs| && forall r <- refs :: r.id in chunks
    ensures Before(refs, chunks, i) <= Before(refs, chunks, j)
    decreases j
  {
    if i < j {
      BeforeGrows(refs, chunks, i, j - 1);
    }
  }

  /** A replay from chunk `start` that lands on message `k` opens this chunk before its page is full. */
  ghost predicate Opens(refs: seq<ChunkRef>, chunks: Store, start: nat, k: nat, limit: int, i: nat)
    requires i < |refs| && forall r <- refs :: r.id in chunks
  {
    start <= i && (limit <= 0 || Before(refs, chunks, i) < k + limit)
  }

  /** Chunk `at` is the first one opened that cannot be read. */
  ghost predicate StopsAt(refs: seq<ChunkRef>, chunks: Store, reachable: set<Id>, start: nat, k: nat, limit: int, at: nat)
    requires forall r <- refs :: r.id in chunks
  {
    && at < |refs| && Opens(refs, chunks, start, k, limit, at) && refs[at].id !in reachable
    && OpenedRead(refs, chunks, reachable, start, k, limit, at)
  }

  /** Of the chunks before `n`, every one opened can be read. */
  ghost predicate OpenedRead(refs: seq<ChunkRef>, chunks: Store, reachable: set<Id>, start: nat, k: nat, limit: int,
                             n: nat)
    requires n <= |refs| && forall r <- refs :: r.id in chunks
  {
    forall i {:trigger Opens(refs, chunks, start, k, limit, i)} |
      0 <= i < n && Opens(refs, chunks, start, k, limit, i) :: refs[i].id in reachable
  }

  /** Once the page is full no later chunk is opened. */
  lemma NoneAfter(refs: seq<ChunkRef>, chunks: Store, reachable: set<Id>, start: nat, k: nat, limit: int, n: nat)
    requires n <= |refs| && (forall r <- refs :: r.id in chunks) && OpenedRead(refs, chunks, reachable, start, k, limit, n)
    requires limit > 0 && Before(refs, chunks, n) >= k + limit
    ensures OpenedRead(refs, chunks, reachable, start, k, limit, |refs|)
  {
    forall i | n <= i < |refs| ensures !Opens(refs, chunks, start, k, limit, i) {
      BeforeGrows(refs, chunks, n, i);
    }
  }

  lemma StopsFull(all: seq<Message>, base: nat, from: Bytes, limit: int, pos: nat, started: bool, out: seq<Message>)
    requires Walking(all, base, from, limit, pos, started, out) && pos < |all| && limit > 0 && |out| >= limit
    ensures PageAt(all, At(all, base, from), from, limit) == Page(out, true, all[pos].id)
    ensures pos >= At(all, base, from) + limit
  {
    Stops(all, base, from, limit, pos, started, out);
    FullExactly(all, base, from, limit, pos, started, out);
  }

  /** A walk's page is full exactly when it stands that many messages past where it landed. */
  lemma FullExactly(all: seq<Message>, base: nat, from: Bytes, limit: int, pos: nat, started: bool, out: seq<Message>)
    requires Walking(all, base, from, limit, pos, started, out) && limit > 0
    ensures |out| >= limit <==> pos >= At(all, base, from) + limit
  {
  }

  lemma {:induction false} BeforeIs(refs: seq<ChunkRef>, chunks: Store, i: nat)
    requires i <= |refs| && forall r <- refs :: r.id in chunks
    ensures Before(refs, chunks, i) == |Flatten(GroupsOf(refs, chunks)[..i])| <= |TranscriptOf(refs, chunks)|
  {
    FlattenPrefix(GroupsOf(refs, chunks), i);
    if i > 0 {
      BeforeIs(refs, chunks, i - 1);
      FlattenNext(GroupsOf(refs, chunks), i - 1);
    }
  }

  /** Where a replay from this message begins: found by walking on from the chunk it starts at. */
  ghost function Landing(refs: seq<ChunkRef>, chunks: Store, from: Bytes): (k: nat)
    requires forall r <- refs :: r.id in chunks
    ensures k <= |TranscriptOf(refs, chunks)|
  {
    BeforeIs(refs, chunks, StartAt(refs, from));
    At(TranscriptOf(refs, chunks), Before(refs, chunks, StartAt(refs, from)), from)
  }

  /** With no id repeated, skipping to the chunk that ends in a message skips no message wanted. */
  lemma NotBefore(c: Codec, refs: seq<ChunkRef>, chunks: Store, j: nat)
    requires Matches(c, refs, chunks) && UniqueIds(TranscriptOf(refs, chunks)) && j < |TranscriptOf(refs, chunks)|
    ensures Landing(refs, chunks, TranscriptOf(refs, chunks)[j].id) == j
  {
    var all := TranscriptOf(refs, chunks);
    var from := all[j].id;
    var start := StartAt(refs, from);
    if start > 0 {
      var m, base := chunks[refs[start].id].messages, Before(refs, chunks, start);
      ChunkStands(refs, chunks, start, all, base, m);
      var at := base + if refs[start].first == from then 0 else |m| - 1;
      assert all[at].id == from;
      assert at == j;
    }
    BeforeIs(refs, chunks, start);
    OnlyPosition(all, Before(refs, chunks, start), from, j);
  }

  lemma OnlyPosition(all: seq<Message>, base: nat, from: Bytes, j: nat)
    requires UniqueIds(all) && base <= j < |all| && all[j].id == from
    ensures At(all, base, from) == j
  {
  }

  /** Chunk `i` is not empty, and its messages stand in the transcript after those of the chunks before it. */
  ghost predicate StandsAt(refs: seq<ChunkRef>, chunks: Store, all: seq<Message>, i: nat)
    requires i < |refs| && forall r <- refs :: r.id in chunks
  {
    var m, base := chunks[refs[i].id].messages, Before(refs, chunks, i);
    && m != [] && refs[i].first == m[0].id
    && base + |m| <= |all|
    && forall j :: 0 <= j < |m| ==> all[base + j] == m[j]
  }

  ghost predicate Stands(refs: seq<ChunkRef>, chunks: Store, all: seq<Message>) {
    && (forall r <- refs :: r.id in chunks)
    && Before(refs, chunks, |refs|) == |all|
    && forall i {:trigger StandsAt(refs, chunks, all, i)} | 0 <= i < |refs| :: StandsAt(refs, chunks, all, i)
  }

  lemma ChunksStand(c: Codec, refs: seq<ChunkRef>, chunks: Store)
    requires Matches(c, refs, chunks)
    ensures Stands(refs, chunks, TranscriptOf(refs, chunks))
  {
    forall i | 0 <= i < |refs| ensures StandsAt(refs, chunks, TranscriptOf(refs, chunks), i) {
      assert refs[i] == RefOf(c, chunks[refs[i].id], refs[i].seqNo);
      OneStands(refs, chunks, i);
    }
    Whole(refs, chunks);
  }

  lemma OneStands(refs: seq<ChunkRef>, chunks: Store, i: nat)
    requires i < |refs| && forall r <- refs :: r.id in chunks
    requires var m := chunks[refs[i].id].messages; m != [] && refs[i].first == m[0].id
    ensures StandsAt(refs, chunks, TranscriptOf(refs, chunks), i)
  {
    ChunkStands(refs, chunks, i, TranscriptOf(refs, chunks), Before(refs, chunks, i), chunks[refs[i].id].messages);
  }

  lemma ChunkStands(refs: seq<ChunkRef>, chunks: Store, i: nat, all: seq<Message>, base: nat, m: seq<Message>)
    requires i < |refs| && (forall r <- refs :: r.id in chunks) && all == TranscriptOf(refs, chunks)
    requires base == Before(refs, chunks, i) && m == chunks[refs[i].id].messages
    ensures base + |m| <= |all| && forall j :: 0 <= j < |m| ==> all[base + j] == m[j]
  {
    BeforeIs(refs, chunks, i);
    GroupAt(GroupsOf(refs, chunks), i, base);
  }

  lemma Whole(refs: seq<ChunkRef>, chunks: Store)
    requires forall r <- refs :: r.id in chunks
    ensures Before(refs, chunks, |refs|) == |TranscriptOf(refs, chunks)|
  {
    BeforeIs(refs, chunks, |refs|);
    assert GroupsOf(refs, chunks)[..|refs|] == GroupsOf(refs, chunks);
  }

  /** Walks one chunk; `done` is set when the limit cut the page short at `next`. */
  method ReadChunk(chunk: Chunk, from: Bytes, limit: int, started0: bool, out0: seq<Message>,
                   ghost all: seq<Message>, ghost begin: nat, ghost base: nat)
    returns (started: bool, out: seq<Message>, done: bool, next: Bytes)
    requires Walking(all, begin, from, limit, base, started0, out0)
    requires base + |chunk.messages| <= |all|
    requires forall j :: 0 <= j < |chunk.messages| ==> all[base + j] == chunk.messages[j]
    ensures done ==> PageAt(all, At(all, begin, from), from, limit) == Page(out, true, next)
    ensures done ==> limit > 0 && base + |chunk.messages| >= At(all, begin, from) + limit
    ensures !done ==> Walking(all, begin, from, limit, base + |chunk.messages|, started, out)
  {
    started, out, done, next := started0, out0, false, [];
    for j := 0 to |chunk.messages|
      invariant Walking(all, begin, from, limit, base + j, started, out)
    {
      var m := chunk.messages[j];
      assert all[base + j] == m;
      if !started && m.id != from {
        StepOver(all, begin, from, limit, base + j);
      } else {
        if limit > 0 && |out| >= limit {
          StopsFull(all, begin, from, limit, base + j, started, out);
          return started, out, true, m.id;
        }
        StepInto(all, begin, from, limit, base + j, started, out);
        started, out := true, out + [m];
      }
    }
  }

  /** Opens one chunk unless the page is already full; `r` is set when the page ends here. */
  method VisitChunk(ref: ChunkRef, chunk: Chunk, readable: bool, at: nat, from: Bytes, limit: int,
                    started0: bool, out0: seq<Message>, ghost all: seq<Message>, ghost begin: nat, ghost base: nat)
    returns (started: bool, out: seq<Message>, r: Option<Page>)
    requires chunk.messages != [] && ref.first == chunk.messages[0].id
    requires Walking(all, begin, from, limit, base, started0, out0)
    requires base + |chunk.messages| <= |all|
    requires forall j :: 0 <= j < |chunk.messages| ==> all[base + j] == chunk.messages[j]
    ensures r == None ==> Walking(all, begin, from, limit, base + |chunk.messages|, started, out)
    ensures r.Some? && r.value.Unreadable? <==> !readable && (limit <= 0 || base < At(all, begin, from) + limit)
    ensures r.Some? && r.value.Unreadable? ==> r.value.at == at
    ensures r.Some? && !r.value.Unreadable? ==>
      limit > 0 && base + |chunk.messages| >= At(all, begin, from) + limit
      && (readable || base >= At(all, begin, from) + limit)
    ensures r.Some? && !r.value.Unreadable? ==> r.value == PageAt(all, At(all, begin, from), from, limit)
  {
    started, out := started0, out0;
    if limit > 0 {
      FullExactly(all, begin, from, limit, base, started, out);
    }
    if limit > 0 && |out| >= limit {
      Stops(all, begin, from, limit, base, started, out);
      assert all[base + 0] == chunk.messages[0];
      return started, out, Some(Page(out, true, ref.first));
    }
    if !readable {
      return started, out, Some(Unreadable(at));
    }
    var done, next;
    started, out, done, next := ReadChunk(chunk, from, limit, started, out, all, begin, base);
    r := if done then Some(Page(out, true, next)) else None;
  }

  /** Opens chunk `i` of a walk that could read every chunk it opened before. */
  method VisitNext(refs: seq<ChunkRef>, chunks: Store, reachable: set<Id>, ghost start: nat, i: nat, from: Bytes,
                   limit: int, started0: bool, out0: seq<Message>, ghost all: seq<Message>, ghost begin: nat)
    returns (started: bool, out: seq<Message>, r: Option<Page>)
    requires Stands(refs, chunks, all) && start <= i < |refs|
    requires Walking(all, begin, from, limit, Before(refs, chunks, i), started0, out0)
    requires OpenedRead(refs, chunks, reachable, start, At(all, begin, from), limit, i)
    ensures r == None ==> Walking(all, begin, from, limit, Before(refs, chunks, i + 1), started, out)
    ensures r == None ==> OpenedRead(refs, chunks, reachable, start, At(all, begin, from), limit, i + 1)
    ensures r.Some? ==> PageEnds(refs, chunks, reachable, start, from, limit, all, begin, r.value)
  {
    assert StandsAt(refs, chunks, all, i);
    started, out, r := VisitChunk(refs[i], chunks[refs[i].id], refs[i].id in reachable, i, from, limit,
                                  started0, out0, all, begin, Before(refs, chunks, i));
    if r.Some? && !r.value.Unreadable? {
      NoneAfter(refs, chunks, reachable, start, At(all, begin, from), limit, i + 1);
    }
  }

  /** What a walk ends with: the first chunk it opens and cannot read, or the page that begins where it lands. */
  ghost predicate PageEnds(refs: seq<ChunkRef>, chunks: Store, reachable: set<Id>, start: nat, from: Bytes, limit: int,
                           all: seq<Message>, begin: nat, page: Page)
    requires begin <= |all| && forall r <- refs :: r.id in chunks
  {
    var k := At(all, begin, from);
    if page.Unreadable? then StopsAt(refs, chunks, reachable, start, k, limit, page.at)
    else page == PageAt(all, k, from, limit) && OpenedRead(refs, chunks, reachable, start, k, limit, |refs|)
  }

  /** Walks the chunks from `start` on. */
  method ReadFrom(refs: seq<ChunkRef>, chunks: Store, reachable: set<Id>, start: nat, from: Bytes, limit: int,
                  ghost all: seq<Message>, ghost begin: nat) returns (r: Page)
    requires Stands(refs, chunks, all) && start <= |refs| && begin == Before(refs, chunks, start)
    requires Walking(all, begin, from, limit, begin, from == [], [])
    ensures PageEnds(refs, chunks, reachable, start, from, limit, all, begin, r)
  {
    var out: seq<Message>, started := [], from == [];
    for i := start to |refs|
      invariant Walking(all, begin, from, limit, Before(refs, chunks, i), started, out)
      invariant OpenedRead(refs, chunks, reachable, start, At(all, begin, from), limit, i)
    {
      var page;
      started, out, page := VisitNext(refs, chunks, reachable, start, i, from, limit, started, out, all, begin);
      if page.Some? {
        return page.value;
      }
    }
    Ends(all, begin, from, limit, started, out);
    r := if started then Page(out, false, []) else NoSuchMessage;
  }

  /**
   * One page of a transcript, over the chunks that can be read now. It fails exactly when a chunk it opens
   * before the page is full cannot be read, and names the first such chunk. Otherwise it is exactly the
   * page that begins where the replay lands; an id the walk never meets is reported as no such message.
   */
  method ReadPage(ghost c: Codec, refs: seq<ChunkRef>, chunks: Store, reachable: set<Id>, from: Bytes, limit: int)
    returns (r: Page)
    requires Matches(c, refs, chunks)
    ensures var start, k := StartAt(refs, from), Landing(refs, chunks, from);
      if r.Unreadable? then StopsAt(refs, chunks, reachable, start, k, limit, r.at)
      else OpenedRead(refs, chunks, reachable, start, k, limit, |refs|)
    ensures !r.Unreadable? ==> r == PageAt(TranscriptOf(refs, chunks), Landing(refs, chunks, from), from, limit)
  {
    var start := StartChunk(refs, from);
    ChunksStand(c, refs, chunks);
    BeforeIs(refs, chunks, start);
    r := ReadFrom(refs, chunks, reachable, start, from, limit, TranscriptOf(refs, chunks), Before(refs, chunks, start));
  }

  // ---------- following one page to the next ----------

  /** Where each id lands, as a function of the id alone. */
  ghost function Lander(refs: seq<ChunkRef>, chunks: Store): (land: Bytes -> nat)
    requires forall r <- refs :: r.id in chunks
    ensures LandsWithin(|TranscriptOf(refs, chunks)|, land)
  {
    (from: Bytes) => if forall r <- refs :: r.id in chunks then Landing(refs, chunks, from) else 0
  }

  ghost predicate LandsWithin(n: nat, land: Bytes -> nat) { forall from {:trigger land(from)} :: land(from) <= n }

  /** The pages read one after another, each from where the one before says to go on, until one says there are no more. */
  ghost function PagesFrom(all: seq<Message>, land: Bytes -> nat, from: Bytes, limits: seq<int>): seq<Page>
    requires LandsWithin(|all|, land)
    decreases |limits|
  {
    if limits == [] then []
    else
      var page := PageAt(all, land(from), from, limits[0]);
      [page] + if Continues(page) then PagesFrom(all, land, page.next, limits[1..]) else []
  }

  /** The pages of these sizes, from the beginning of the transcript. */
  ghost function Pages(refs: seq<ChunkRef>, chunks: Store, limits: seq<int>): seq<Page>
    requires forall r <- refs :: r.id in chunks
  {
    PagesFrom(TranscriptOf(refs, chunks), Lander(refs, chunks), [], limits)
  }

  predicate Continues(page: Page) { page.Page? && page.more }

  /** Every page read so far says there is more to come. */
  ghost predicate Unfinished(pages: seq<Page>) { forall page <- pages :: Continues(page) }

  /** The messages of all the pages, in the order they were read. */
  function Gathered(pages: seq<Page>): seq<Message> {
    if pages == [] then []
    else (if pages[0].Page? then pages[0].messages else []) + Gathered(pages[1..])
  }

  /** What has been read is a beginning of the transcript, and all of it once a page says there is no more. */
  ghost predicate ReadsWhole(all: seq<Message>, pages: seq<Page>) {
    Gathered(pages) <= all && (!Unfinished(pages) ==> Gathered(pages) == all)
  }

  /** Follows the pages of the given sizes, for as long as there is another. */
  method FollowPages(ghost c: Codec, refs: seq<ChunkRef>, chunks: Store, limits: seq<int>)
    returns (out: seq<Message>, more: bool)
    requires Matches(c, refs, chunks)
    ensures out == Gathered(Pages(refs, chunks, limits))
    ensures more <==> Unfinished(Pages(refs, chunks, limits))
  {
    ghost var all, land := TranscriptOf(refs, chunks), Lander(refs, chunks);
    var from: Bytes := [];
    out, more := [], true;
    for i := 0 to |limits|
      invariant more && Following(PagesFrom(all, land, from, limits[i..]), Pages(refs, chunks, limits), out)
    {
      assert limits[i..][1..] == limits[i + 1..];
      var page := NextPage(c, refs, chunks, from, limits[i]);
      OnePageMore(all, land, from, limits[i..], page, Pages(refs, chunks, limits), out);
      if page.Page? {
        out := out + page.messages;
      }
      if !Continues(page) {
        return out, false;
      }
      from := page.next;
    }
  }

  method NextPage(ghost c: Codec, refs: seq<ChunkRef>, chunks: Store, from: Bytes, limit: int) returns (page: Page)
    requires Matches(c, refs, chunks)
    ensures page == PageAt(TranscriptOf(refs, chunks), Lander(refs, chunks)(from), from, limit)
  {
    var reachable := set r <- refs :: r.id;
    page := ReadPage(c, refs, chunks, reachable, from, limit);
  }

  /** With `out` gathered so far, these pages are what is left of the pages in all. */
  ghost predicate Following(left: seq<Page>, pages: seq<Page>, out: seq<Message>) {
    out + Gathered(left) == Gathered(pages) && (Unfinished(left) <==> Unfinished(pages))
  }

  lemma OnePageMore(all: seq<Message>, land: Bytes -> nat, from: Bytes, limits: seq<int>, page: Page,
                    pages: seq<Page>, out: seq<Message>)
    requires LandsWithin(|all|, land) && limits != [] && page == PageAt(all, land(from), from, limits[0])
    requires Following(PagesFrom(all, land, from, limits), pages, out)
    ensures page.Page? && Continues(page) ==>
      Following(PagesFrom(all, land, page.next, limits[1..]), pages, out + page.messages)
    ensures !Continues(page) ==>
      Gathered(pages) == (if page.Page? then out + page.messages else out) && !Unfinished(pages)
  {
    FollowingNext(page, if Continues(page) then PagesFrom(all, land, page.next, limits[1..]) else [], pages, out);
  }

  lemma FollowingNext(page: Page, rest: seq<Page>, pages: seq<Page>, out: seq<Message>)
    requires Following([page] + rest, pages, out) && (Continues(page) || rest == [])
    ensures page.Page? && Continues(page) ==> Following(rest, pages, out + page.messages)
    ensures !Continues(page) ==>
      Gathered(pages) == (if page.Page? then out + page.messages else out) && !Unfinished(pages)
  {
    FirstPage(page, rest);
    var messages := if page.Page? then page.messages else [];
    Joined(out, messages, Gathered(rest));
    Joined(out, messages, []);
  }

  lemma Joined(a: seq<Message>, b: seq<Message>, c: seq<Message>)
    ensures a + (b + c) == (a + b) + c
    ensures c == [] ==> a + (b + c) == a + b
    ensures b == [] ==> a + b == a
  {
  }

  lemma FirstPage(page: Page, rest: seq<Page>)
    ensures Gathered([page] + rest) == (if page.Page? then page.messages else []) + Gathered(rest)
    ensures Unfinished([page] + rest) <==> Continues(page) && Unfinished(rest)
  {
    assert ([page] + rest)[1..] == rest;
    assert Unfinished([page] + rest) ==> forall p <- rest :: p in [page] + rest;
    assert ([page] + rest)[0] == page;
  }

  /** Where the message at each place is found by its own id. */
  ghost function FoundBy(all: seq<Message>, land: Bytes -> nat): nat -> nat {
    (j: nat) => (if j < |all| then land(all[j].id) else 0) as nat
  }

  ghost function Found(refs: seq<ChunkRef>, chunks: Store): nat -> nat
    requires forall r <- refs :: r.id in chunks
  {
    FoundBy(TranscriptOf(refs, chunks), Lander(refs, chunks))
  }

  /** Every message is found at its own place. */
  ghost predicate InPlace(n: nat, found: nat -> nat) { forall j {:trigger found(j)} :: 0 < j < n ==> found(j) == j }

  /** No message is found before its own place. */
  ghost predicate NoneEarly(n: nat, found: nat -> nat) { forall j {:trigger found(j)} :: 0 < j < n ==> found(j) >= j }

  /** No message is looked for beyond the last. */
  ghost predicate AllFound(n: nat, found: nat -> nat) { forall j: nat {:trigger found(j)} :: found(j) <= n }

  /** After pages of these sizes from place `k`, there is still another page to ask for. */
  ghost predicate StillMore(n: nat, found: nat -> nat, k: nat, limits: seq<int>)
    decreases |limits|
  {
    limits == []
    || (var end := PageEnd(n, k, limits[0]); end < n && StillMore(n, found, found(end), limits[1..]))
  }

  function Range(first: nat, end: nat): (places: seq<nat>)
    requires first <= end
    ensures |places| == end - first && forall i :: 0 <= i < |places| ==> places[i] == first + i
    decreases end - first
  {
    if first == end then [] else [first] + Range(first + 1, end)
  }

  /** The places pages of these sizes read, in the order they read them. */
  ghost function Places(n: nat, found: nat -> nat, k: nat, limits: seq<int>): (places: seq<nat>)
    ensures forall i :: 0 <= i < |places| ==> places[i] < n
    decreases |limits|
  {
    if limits == [] || k > n then []
    else
      var end := PageEnd(n, k, limits[0]);
      Range(k, end) + if end < n then Places(n, found, found(end), limits[1..]) else []
  }

  function MessagesAt(all: seq<Message>, places: seq<nat>): (out: seq<Message>)
    requires forall i :: 0 <= i < |places| ==> places[i] < |all|
    ensures |out| == |places| && forall i :: 0 <= i < |places| ==> out[i] == all[places[i]]
  {
    seq(|places|, i requires 0 <= i < |places| => all[places[i]])
  }

  /** For any ids: the messages the pages hand over are those at these places, and they go on exactly as long. */
  lemma {:induction false} PagesArePlaces(all: seq<Message>, land: Bytes -> nat, from: Bytes, limits: seq<int>)
    requires LandsWithin(|all|, land)
    ensures var pages, found := PagesFrom(all, land, from, limits), FoundBy(all, land);
      && Gathered(pages) == MessagesAt(all, Places(|all|, found, land(from), limits))
      && (Unfinished(pages) <==> StillMore(|all|, found, land(from), limits))
    decreases |limits|
  {
    if limits != [] {
      var found, k := FoundBy(all, land), land(from);
      var page, end := PageAt(all, k, from, limits[0]), PageEnd(|all|, k, limits[0]);
      assert MessagesAt(all, Range(k, end)) == all[k..end];
      if Continues(page) {
        var rest := PagesFrom(all, land, page.next, limits[1..]);
        assert found(end) == land(page.next);
        PagesArePlaces(all, land, page.next, limits[1..]);
        FirstPage(page, rest);
        TakenTogether(all, Range(k, end), Places(|all|, found, found(end), limits[1..]));
      } else {
        FirstPage(page, []);
        assert Places(|all|, found, k, limits) == Range(k, end);
      }
    }
  }

  lemma TakenTogether(all: seq<Message>, a: seq<nat>, b: seq<nat>)
    requires forall i :: 0 <= i < |a| ==> a[i] < |all|
    requires forall i :: 0 <= i < |b| ==> b[i] < |all|
    ensures forall i :: 0 <= i < |a + b| ==> (a + b)[i] < |all|
    ensures MessagesAt(all, a + b) == MessagesAt(all, a) + MessagesAt(all, b)
  {
  }

  // ---------- when following pages ends ----------

  /** An earlier message with the same id lies before the chunk a replay for that id starts at. */
  ghost predicate PassedOver(refs: seq<ChunkRef>, chunks: Store, all: seq<Message>, i: nat, j: nat)
    requires i < j < |all| && forall r <- refs :: r.id in chunks
  {
    all[i].id == all[j].id ==> i < Before(refs, chunks, StartAt(refs, all[j].id))
  }

  /** No id after the first is empty, and every earlier message with the same id is passed over. */
  ghost predicate RepeatsPassedOver(refs: seq<ChunkRef>, chunks: Store)
    requires forall r <- refs :: r.id in chunks
  {
    var all := TranscriptOf(refs, chunks);
    && (forall j :: 0 < j < |all| ==> all[j].id != [])
    && (forall i, j :: 0 <= i < j < |all| ==> PassedOver(refs, chunks, all, i, j))
  }

  /** The id of every message but the first finds some message of the transcript. */
  lemma FoundSomewhere(c: Codec, refs: seq<ChunkRef>, chunks: Store)
    requires Matches(c, refs, chunks)
    ensures forall j :: 0 < j < |TranscriptOf(refs, chunks)| ==> Found(refs, chunks)(j) < |TranscriptOf(refs, chunks)|
  {
    var all := TranscriptOf(refs, chunks);
    forall j | 0 < j < |all| ensures Found(refs, chunks)(j) < |all| {
      LandsSomewhere(c, refs, chunks, all, j);
    }
  }

  lemma LandsSomewhere(c: Codec, refs: seq<ChunkRef>, chunks: Store, all: seq<Message>, j: nat)
    requires Matches(c, refs, chunks) && all == TranscriptOf(refs, chunks) && j < |all|
    ensures Landing(refs, chunks, all[j].id) < |all|
  {
    var from := all[j].id;
    var start := StartAt(refs, from);
    BeforeIs(refs, chunks, start);
    if start > 0 {
      var m, base := chunks[refs[start].id].messages, Before(refs, chunks, start);
      ChunkStands(refs, chunks, start, all, base, m);
      var at := base + if refs[start].first == from then 0 else |m| - 1;
      assert all[at].id == from;
    }
  }

  /** What that says of one message: it is not found before its own place. */
  lemma FoundEarly(refs: seq<ChunkRef>, chunks: Store, j: nat)
    requires (forall r <- refs :: r.id in chunks) && 0 < j < |TranscriptOf(refs, chunks)|
    ensures var all := TranscriptOf(refs, chunks);
      Found(refs, chunks)(j) >= j
      <==> all[j].id != [] && forall i :: 0 <= i < j ==> PassedOver(refs, chunks, all, i, j)
  {
    var all := TranscriptOf(refs, chunks);
    var id, base := all[j].id, Before(refs, chunks, StartAt(refs, all[j].id));
    var k := Landing(refs, chunks, id);
    BeforeIs(refs, chunks, StartAt(refs, id));
    if id != [] && k < j {
      assert all[k].id == id && k >= base;
      assert !PassedOver(refs, chunks, all, k, j);
    }
    forall i | 0 <= i < j && id != [] && k >= j ensures PassedOver(refs, chunks, all, i, j) {
    }
  }

  lemma NoneEarlyExactly(refs: seq<ChunkRef>, chunks: Store)
    requires forall r <- refs :: r.id in chunks
    ensures NoneEarly(|TranscriptOf(refs, chunks)|, Found(refs, chunks)) <==> RepeatsPassedOver(refs, chunks)
  {
    var all := TranscriptOf(refs, chunks);
    forall j | 0 < j < |all|
      ensures Found(refs, chunks)(j) >= j
        <==> all[j].id != [] && forall i :: 0 <= i < j ==> PassedOver(refs, chunks, all, i, j)
    {
      FoundEarly(refs, chunks, j);
    }
  }

  lemma {:induction false} AdvancingEnds(n: nat, found: nat -> nat, k: nat, limits: seq<int>)
    requires NoneEarly(n, found) && k + |limits| > n && limits != []
    ensures !StillMore(n, found, k, limits)
    decreases |limits|
  {
    var end := PageEnd(n, k, limits[0]);
    if end < n {
      assert found(end) >= end;
      if limits[1..] != [] {
        AdvancingEnds(n, found, found(end), limits[1..]);
      }
    }
  }

  function Repeated(l: int, times: nat): (limits: seq<int>)
    ensures |limits| == times
  {
    if times == 0 then [] else [l] + Repeated(l, times - 1)
  }

  lemma {:induction false} GoesRound(n: nat, found: nat -> nat, j: nat, times: nat)
    requires j < n && found(j) < j
    ensures StillMore(n, found, found(j), Repeated(j - found(j), times))
    decreases times
  {
    if times > 0 {
      var limits := Repeated(j - found(j), times);
      assert limits[1..] == Repeated(j - found(j), times - 1);
      GoesRound(n, found, j, times - 1);
    }
  }

  /** A message found too early: a first page up to it, then pages back to it, as many as wanted. */
  lemma RoundAndRound(n: nat, found: nat -> nat, j: nat, times: nat) returns (limits: seq<int>)
    requires 0 < j < n && found(j) < j
    ensures |limits| == times + 1 && StillMore(n, found, 0, limits)
  {
    limits := [j] + Repeated(j - found(j), times);
    assert limits[1..] == Repeated(j - found(j), times);
    GoesRound(n, found, j, times);
  }

  /**
   * Following pages from the beginning comes to an end, whatever their sizes, exactly when no message
   * after the first has an empty id and every earlier message with a repeated id is passed over.
   */
  lemma PagingEndsExactly(refs: seq<ChunkRef>, chunks: Store)
    requires forall r <- refs :: r.id in chunks
    ensures RepeatsPassedOver(refs, chunks)
      <==> forall limits :: |limits| > |TranscriptOf(refs, chunks)| ==> !Unfinished(Pages(refs, chunks, limits))
  {
    var all, land := TranscriptOf(refs, chunks), Lander(refs, chunks);
    var n, found := |all|, FoundBy(all, land);
    NoneEarlyExactly(refs, chunks);
    if NoneEarly(n, found) {
      forall limits | |limits| > n ensures !Unfinished(Pages(refs, chunks, limits)) {
        PagesArePlaces(all, land, [], limits);
        AdvancingEnds(n, found, 0, limits);
      }
    } else {
      var j: nat :| 0 < j < n && found(j) < j;
      var limits := RoundAndRound(n, found, j, n);
      PagesArePlaces(all, land, [], limits);
    }
  }

  // ---------- when following pages reads everything once, in order ----------

  /** Every message is found at its own place exactly when no id is repeated and none after the first is empty. */
  lemma InPlaceExactly(c: Codec, refs: seq<ChunkRef>, chunks: Store)
    requires Matches(c, refs, chunks)
    ensures InPlace(|TranscriptOf(refs, chunks)|, Found(refs, chunks)) <==> UniqueIds(TranscriptOf(refs, chunks))
  {
    var all, found := TranscriptOf(refs, chunks), Found(refs, chunks);
    if UniqueIds(all) {
      forall j | 0 < j < |all| ensures found(j) == j {
        NotBefore(c, refs, chunks, j);
      }
    }
    if InPlace(|all|, found) {
      NoneEarlyExactly(refs, chunks);
      forall i, j | 0 <= i < j < |all| ensures all[i].id != all[j].id {
        assert found(j) == j && (i > 0 ==> found(i) == i);
        FirstIsFirst(c, refs, chunks);
      }
    }
  }

  /** The first message is found where it is, whatever its id. */
  lemma FirstIsFirst(c: Codec, refs: seq<ChunkRef>, chunks: Store)
    requires Matches(c, refs, chunks) && TranscriptOf(refs, chunks) != []
    ensures Found(refs, chunks)(0) == 0
  {
    var all := TranscriptOf(refs, chunks);
    assert refs != [];
    ChunkStands(refs, chunks, 0, all, 0, chunks[refs[0].id].messages);
    assert all[0 + 0] == chunks[refs[0].id].messages[0];
    assert refs[0] == RefOf(c, chunks[refs[0].id], refs[0].seqNo);
  }

  lemma {:induction false} ReadsInOrder(n: nat, found: nat -> nat, k: nat, limits: seq<int>)
    requires InPlace(n, found) && k <= n
    ensures k + |Places(n, found, k, limits)| <= n
    ensures Places(n, found, k, limits) == Range(k, k + |Places(n, found, k, limits)|)
    ensures !StillMore(n, found, k, limits) ==> k + |Places(n, found, k, limits)| == n
    decreases |limits|
  {
    if limits != [] {
      var end := PageEnd(n, k, limits[0]);
      if end < n {
        assert found(end) == end;
        ReadsInOrder(n, found, end, limits[1..]);
      }
    }
  }

  /** Each page that says there is more has at least one message. */
  lemma {:induction false} ReadsSome(n: nat, found: nat -> nat, k: nat, limits: seq<int>)
    requires StillMore(n, found, k, limits) && k <= n && AllFound(n, found)
    ensures |Places(n, found, k, limits)| >= |limits|
    decreases |limits|
  {
    if limits != [] {
      ReadsSome(n, found, found(PageEnd(n, k, limits[0])), limits[1..]);
    }
  }

  /** A message found elsewhere: pages can be asked for that read too much without end, or end with too little read. */
  lemma ReadsElsewhere(n: nat, found: nat -> nat, j: nat) returns (limits: seq<int>)
    requires 0 < j < n && found(j) != j && AllFound(n, found)
    ensures var read := |Places(n, found, 0, limits)|;
      read > n || (read < n && !StillMore(n, found, 0, limits))
  {
    if found(j) < j {
      limits := RoundAndRound(n, found, j, n);
      ReadsSome(n, found, 0, limits);
    } else {
      limits := [j, 0];
      assert limits[1..] == [0];
      assert Places(n, found, found(j), [0]) == Range(found(j), n);
    }
  }

  lemma InPlaceReadsWhole(all: seq<Message>, land: Bytes -> nat, limits: seq<int>)
    requires LandsWithin(|all|, land) && land([]) == 0 && InPlace(|all|, FoundBy(all, land))
    ensures ReadsWhole(all, PagesFrom(all, land, [], limits))
  {
    var places, pages := Places(|all|, FoundBy(all, land), 0, limits), PagesFrom(all, land, [], limits);
    PagesArePlaces(all, land, [], limits);
    PlacesInOrder(|all|, FoundBy(all, land), limits, places);
    InOrderIsWhole(all, places, pages);
  }

  lemma PlacesInOrder(n: nat, found: nat -> nat, limits: seq<int>, places: seq<nat>)
    requires InPlace(n, found) && places == Places(n, found, 0, limits)
    ensures |places| <= n && places == Range(0, |places|)
    ensures !StillMore(n, found, 0, limits) ==> |places| == n
  {
    ReadsInOrder(n, found, 0, limits);
  }

  lemma InOrderIsWhole(all: seq<Message>, places: seq<nat>, pages: seq<Page>)
    requires |places| <= |all| && places == Range(0, |places|) && Gathered(pages) == MessagesAt(all, places)
    requires !Unfinished(pages) ==> |places| == |all|
    ensures ReadsWhole(all, pages)
  {
    assert MessagesAt(all, places) == all[..|places|];
    assert all[..|all|] == all;
  }

  lemma ElsewhereReadsNot(all: seq<Message>, land: Bytes -> nat) returns (limits: seq<int>)
    requires LandsWithin(|all|, land) && land([]) == 0 && !InPlace(|all|, FoundBy(all, land))
    ensures !ReadsWhole(all, PagesFrom(all, land, [], limits))
  {
    var found := FoundBy(all, land);
    forall j: nat ensures found(j) <= |all| {
      assert found(j) == if j < |all| then land(all[j].id) else 0;
    }
    var j: nat :| 0 < j < |all| && found(j) != j;
    limits := ReadsElsewhere(|all|, found, j);
    PagesArePlaces(all, land, [], limits);
  }

  /**
   * Pages of whatever sizes read every message once and in order, and all of them by the time one says
   * there is no more, exactly when no id is repeated and none after the first is empty.
   */
  lemma PagingReadsExactly(c: Codec, refs: seq<ChunkRef>, chunks: Store)
    requires Matches(c, refs, chunks)
    ensures UniqueIds(TranscriptOf(refs, chunks))
      <==> forall limits :: ReadsWhole(TranscriptOf(refs, chunks), Pages(refs, chunks, limits))
  {
    var all, land := TranscriptOf(refs, chunks), Lander(refs, chunks);
    InPlaceExactly(c, refs, chunks);
    if UniqueIds(all) {
      forall limits ensures ReadsWhole(all, Pages(refs, chunks, limits)) {
        InPlaceReadsWhole(all, land, limits);
      }
    } else {
      var limits := ElsewhereReadsNot(all, land);
      assert !ReadsWhole(all, Pages(refs, chunks, limits));
    }
  }

  /** How far through the transcript `out` has got, and where the next page starts. */
  ghost predicate Reading(all: seq<Message>, from: Bytes, more: bool, out: seq<Message>) {
    && out <= all
    && (!more ==> out == all)
    && (more ==> if out == [] then from == [] else |out| < |all| && from == all[|out|].id)
  }

  lemma PageAdvances(all: seq<Message>, k: nat, from: Bytes, limit: int, out: seq<Message>)
    requires limit > 0 && Reading(all, from, true, out) && k == |out|
    ensures var page := PageAt(all, k, from, limit);
      && page.Page? && Reading(all, page.next, page.more, out + page.messages)
      && (page.more ==> page.messages != [])
  {
    var end := PageEnd(|all|, k, limit);
    assert out + all[k..end] == all[..end];
    assert all[..|all|] == all;
  }

  /**
   * Following each page's `next`, whatever the page sizes, reads the whole transcript, every message
   * once and in order, and comes to an end, when no id is repeated.
   */
  method ReadAll(ghost c: Codec, refs: seq<ChunkRef>, chunks: Store) returns (out: seq<Message>)
    requires Matches(c, refs, chunks) && UniqueIds(TranscriptOf(refs, chunks))
    ensures out == TranscriptOf(refs, chunks)
  {
    ghost var all := TranscriptOf(refs, chunks);
    var from, more: bool := [], true;
    out := [];
    InPlaceExactly(c, refs, chunks);
    while more
      invariant Reading(all, from, more, out)
      decreases more, |all| - |out|
    {
      var limit: int := *;
      if limit <= 0 {
        limit := 1;
      }
      LandsOn(refs, chunks, |out|, from);
      PageAdvances(all, |out|, from, limit, out);
      var page := NextPage(c, refs, chunks, from, limit);
      out, more, from := out + page.messages, page.more, page.next;
    }
  }

  lemma LandsOn(refs: seq<ChunkRef>, chunks: Store, k: nat, from: Bytes)
    requires forall r <- refs :: r.id in chunks
    requires var all := TranscriptOf(refs, chunks);
      InPlace(|all|, Found(refs, chunks)) && (if k == 0 then from == [] else k < |all| && from == all[k].id)
    ensures Landing(refs, chunks, from) == k
  {
    if k > 0 {
      assert Found(refs, chunks)(k) == k;
    }
  }
}
