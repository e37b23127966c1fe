/** The account's change feed, walked to the objects that are there now. */
module ChangeFeed {
  import opened Records
  import opened World
  import opened Sweeping

  /** What an event says of its key: the object is gone, is there but will not open, or is there. */
  datatype Change = Gone | Unreadable | Present(slab: SlabId)

  datatype Event = Event(key: Ref, change: Change)

  const PAGE_SIZE: nat := 500

  // ---------- what a walk returns, stated over the whole feed ----------

  /** The last thing the feed says of a key. */
  function Latest(feed: seq<Event>, key: Ref): Option<Change>
    decreases |feed|
  {
    if feed == [] then None
    else if feed[|feed| - 1].key == key then Some(feed[|feed| - 1].change)
    else Latest(feed[..|feed| - 1], key)
  }

  /** The keys in the order the feed first names them. */
  function FirstSeen(feed: seq<Event>): (keys: seq<Ref>)
    ensures forall i, j :: 0 <= i < j < |keys| ==> keys[i] != keys[j]
    ensures forall key :: key in keys <==> Latest(feed, key).Some?
    decreases |feed|
  {
    if feed == [] then []
    else
      var earlier := FirstSeen(feed[..|feed| - 1]);
      if feed[|feed| - 1].key in earlier then earlier else earlier + [feed[|feed| - 1].key]
  }

  function LiveIn(feed: seq<Event>, keys: seq<Ref>): seq<Listed>
    decreases |keys|
  {
    if keys == [] then []
    else
      var key := keys[|keys| - 1];
      var earlier := LiveIn(feed, keys[..|keys| - 1]);
      match Latest(feed, key)
      case Some(Present(slab)) => earlier + [Listed(key, slab)]
      case _ => earlier
  }

  /** What a walk should report: each key still live, ordered by its first event. */
  function Walked(feed: seq<Event>): seq<Listed> { LiveIn(feed, FirstSeen(feed)) }

  function UnopenableEvents(feed: seq<Event>): seq<Ref>
    decreases |feed|
  {
    if feed == [] then []
    else UnopenableEvents(feed[..|feed| - 1])
         + if feed[|feed| - 1].change == Unreadable then [feed[|feed| - 1].key] else []
  }

  // ---------- the walk ----------

  /** The next events after a cursor: at least one while any are left, and never more than a page. */
  method ListObjects(feed: seq<Event>, cursor: nat) returns (page: seq<Event>)
    requires cursor <= |feed|
    ensures |page| <= PAGE_SIZE && cursor + |page| <= |feed| && page == feed[cursor..cursor + |page|]
    ensures page == [] ==> cursor == |feed|
  {
    var count: int := *;
    if count <= 0 || count > PAGE_SIZE || cursor + count > |feed| {
      count := if |feed| - cursor < PAGE_SIZE then |feed| - cursor else PAGE_SIZE;
    }
    page := feed[cursor..cursor + count];
  }

  /** What the walk has gathered after some prefix of the feed. */
  ghost predicate Gathered(feed: seq<Event>, live: map<Ref, SlabId>, seen: set<Ref>, order: seq<Ref>,
                           superseded: nat, unreadable: seq<Ref>)
  {
    && order == FirstSeen(feed)
    && (forall key :: key in seen <==> key in order)
    && (forall key :: key in live <==> Latest(feed, key).Some? && Latest(feed, key).value.Present?)
    && (forall key <- live :: Latest(feed, key) == Some(Present(live[key])))
    && superseded + |order| == |feed|
    && unreadable == UnopenableEvents(feed)
  }

  method TakeEvent(e: Event, live0: map<Ref, SlabId>, seen0: set<Ref>, order0: seq<Ref>, superseded0: nat,
                   unreadable0: seq<Ref>, ghost before: seq<Event>)
    returns (live: map<Ref, SlabId>, seen: set<Ref>, order: seq<Ref>, superseded: nat, unreadable: seq<Ref>)
    requires Gathered(before, live0, seen0, order0, superseded0, unreadable0)
    ensures Gathered(before + [e], live, seen, order, superseded, unreadable)
  {
    live, seen, order, superseded, unreadable := live0, seen0, order0, superseded0, unreadable0;
    assert (before + [e])[..|before|] == before;
    if e.key in seen {
      superseded := superseded + 1;
    } else {
      seen, order := seen + {e.key}, order + [e.key];
    }
    match e.change {
      case Gone => live := live - {e.key};
      case Unreadable =>
        unreadable := unreadable + [e.key];
        live := live - {e.key};
      case Present(slab) => live := live[e.key := slab];
    }
  }

  method TakePage(page: seq<Event>, live0: map<Ref, SlabId>, seen0: set<Ref>, order0: seq<Ref>, superseded0: nat,
                  unreadable0: seq<Ref>, ghost before: seq<Event>)
    returns (live: map<Ref, SlabId>, seen: set<Ref>, order: seq<Ref>, superseded: nat, unreadable: seq<Ref>)
    requires Gathered(before, live0, seen0, order0, superseded0, unreadable0)
    ensures Gathered(before + page, live, seen, order, superseded, unreadable)
  {
    live, seen, order, superseded, unreadable := live0, seen0, order0, superseded0, unreadable0;
    assert before + page[..0] == before;
    for i := 0 to |page|
      invariant Gathered(before + page[..i], live, seen, order, superseded, unreadable)
    {
      assert before + page[..i + 1] == (before + page[..i]) + [page[i]];
      live, seen, order, superseded, unreadable :=
        TakeEvent(page[i], live, seen, order, superseded, unreadable, before + page[..i]);
    }
    assert page[..|page|] == page;
  }

  /** Pages through the change feed and reports every live object once, in first-seen order. */
  method WalkObjects(feed: seq<Event>) returns (out: seq<Listed>, superseded: nat, unreadable: seq<Ref>)
    ensures out == Walked(feed)
    ensures superseded + |FirstSeen(feed)| == |feed|
    ensures unreadable == UnopenableEvents(feed)
  {
    var cursor := 0;
    var live: map<Ref, SlabId>, seen: set<Ref>, order: seq<Ref> := map[], {}, [];
    superseded, unreadable := 0, [];
    assert feed[..0] == [];
    while true
      invariant cursor <= |feed| && Gathered(feed[..cursor], live, seen, order, superseded, unreadable)
      decreases |feed| - cursor
    {
      var page := ListObjects(feed, cursor);
      if page == [] {
        break;
      }
      live, seen, order, superseded, unreadable :=
        TakePage(page, live, seen, order, superseded, unreadable, feed[..cursor]);
      assert feed[..cursor + |page|] == feed[..cursor] + page;
      cursor := cursor + |page|;
    }
    assert feed[..cursor] == feed;
    out := Report(feed, live, order);
  }

  method Report(ghost feed: seq<Event>, live: map<Ref, SlabId>, order: seq<Ref>) returns (out: seq<Listed>)
    requires forall key :: key in live <==> Latest(feed, key).Some? && Latest(feed, key).value.Present?
    requires forall key <- live :: Latest(feed, key) == Some(Present(live[key]))
    ensures out == LiveIn(feed, order)
  {
    out := [];
    for i := 0 to |order|
      invariant out == LiveIn(feed, order[..i])
    {
      assert order[..i + 1][..i] == order[..i];
      if order[i] in live {
        out := out + [Listed(order[i], live[order[i]])];
      }
    }
    assert order[..|order|] == order;
  }

  // ---------- what a walk means ----------

  lemma {:induction false} LiveInMembers(feed: seq<Event>, keys: seq<Ref>, o: Listed)
    ensures o in LiveIn(feed, keys) <==> o.ref in keys && Latest(feed, o.ref) == Some(Present(o.slab))
    decreases |keys|
  {
    if keys != [] {
      var front, key := keys[..|keys| - 1], keys[|keys| - 1];
      var earlier := LiveIn(feed, front);
      LiveInMembers(feed, front, o);
      LastLive(feed, keys, o, earlier);
      assert keys == front + [key];
    }
  }

  lemma LastLive(feed: seq<Event>, keys: seq<Ref>, o: Listed, earlier: seq<Listed>)
    requires keys != [] && earlier == LiveIn(feed, keys[..|keys| - 1])
    ensures var key := keys[|keys| - 1];
      o in LiveIn(feed, keys) <==> o in earlier || (o.ref == key && Latest(feed, key) == Some(Present(o.slab)))
  {
  }

  lemma {:induction false} LiveInOnce(feed: seq<Event>, keys: seq<Ref>)
    requires forall i, j :: 0 <= i < j < |keys| ==> keys[i] != keys[j]
    ensures forall i, j :: 0 <= i < j < |LiveIn(feed, keys)| ==> LiveIn(feed, keys)[i].ref != LiveIn(feed, keys)[j].ref
    decreases |keys|
  {
    if keys != [] {
      var front := keys[..|keys| - 1];
      LiveInOnce(feed, front);
      forall o <- LiveIn(feed, front) ensures o.ref != keys[|keys| - 1] {
        LiveInMembers(feed, front, o);
      }
    }
  }

  /** A walk yields exactly the keys whose last event leaves a readable object, each once. */
  lemma WalkIsLive(feed: seq<Event>)
    ensures forall o :: o in Walked(feed) <==> Latest(feed, o.ref) == Some(Present(o.slab))
    ensures forall i, j :: 0 <= i < j < |Walked(feed)| ==> Walked(feed)[i].ref != Walked(feed)[j].ref
  {
    forall o ensures o in Walked(feed) <==> Latest(feed, o.ref) == Some(Present(o.slab)) {
      LiveInMembers(feed, FirstSeen(feed), o);
    }
    LiveInOnce(feed, FirstSeen(feed));
  }

  lemma {:induction false} UnopenableMembers(feed: seq<Event>, key: Ref)
    ensures key in UnopenableEvents(feed) <==> Event(key, Unreadable) in feed
    decreases |feed|
  {
    if feed != [] {
      UnopenableMembers(feed[..|feed| - 1], key);
      assert feed == feed[..|feed| - 1] + [feed[|feed| - 1]];
    }
  }

  lemma {:induction false} LatestOfOnly(feed: seq<Event>, i: nat)
    requires i < |feed| && forall j :: 0 <= j < |feed| && j != i ==> feed[j].key != feed[i].key
    ensures Latest(feed, feed[i].key) == Some(feed[i].change)
    decreases |feed|
  {
    if i < |feed| - 1 {
      LatestOfOnly(feed[..|feed| - 1], i);
    }
  }

  lemma {:induction false} LatestIsSome(feed: seq<Event>, key: Ref) returns (i: nat)
    requires Latest(feed, key).Some?
    ensures i < |feed| && feed[i] == Event(key, Latest(feed, key).value)
    decreases |feed|
  {
    i := |feed| - 1;
    if feed[i].key != key {
      i := LatestIsSome(feed[..|feed| - 1], key);
    }
  }

  /** An event at `i` found the object would not open, and the last event for that key, at `j`, says otherwise. */
  ghost predicate Overtaken(feed: seq<Event>, i: nat, j: nat) {
    && i < j < |feed| && feed[i].key == feed[j].key
    && feed[i].change == Unreadable && feed[j].change != Unreadable
    && forall k :: j < k < |feed| ==> feed[k].key != feed[j].key
  }

  lemma {:induction false} LatestAt(feed: seq<Event>, j: nat)
    requires j < |feed| && forall k :: j < k < |feed| ==> feed[k].key != feed[j].key
    ensures Latest(feed, feed[j].key) == Some(feed[j].change)
    decreases |feed|
  {
    if j < |feed| - 1 {
      LatestAt(feed[..|feed| - 1], j);
    }
  }

  lemma {:induction false} LastEvent(feed: seq<Event>, key: Ref) returns (j: nat)
    requires Latest(feed, key).Some?
    ensures j < |feed| && feed[j] == Event(key, Latest(feed, key).value)
    ensures forall k :: j < k < |feed| ==> feed[k].key != key
    decreases |feed|
  {
    j := |feed| - 1;
    if feed[j].key != key {
      j := LastEvent(feed[..|feed| - 1], key);
    }
  }

  /** A key is reported unreadable although its object is not, exactly when an event was overtaken. */
  lemma {:induction false} ReportedThough(feed: seq<Event>, key: Ref)
    ensures key in UnopenableEvents(feed) && Latest(feed, key) != Some(Unreadable)
      <==> exists i: nat, j: nat :: Overtaken(feed, i, j) && feed[j].key == key
  {
    UnopenableMembers(feed, key);
    if key in UnopenableEvents(feed) && Latest(feed, key) != Some(Unreadable) {
      var i :| 0 <= i < |feed| && feed[i] == Event(key, Unreadable);
      NamedHasLatest(feed, i);
      var j := LastEvent(feed, key);
      assert Overtaken(feed, i, j);
    }
    if i: nat, j: nat :| Overtaken(feed, i, j) && feed[j].key == key {
      LatestAt(feed, j);
      assert feed[i] == Event(key, Unreadable);
    }
  }

  lemma NamedHasLatest(feed: seq<Event>, i: nat)
    requires i < |feed|
    ensures Latest(feed, feed[i].key).Some?
    decreases |feed|
  {
    if feed[|feed| - 1].key != feed[i].key {
      NamedHasLatest(feed[..|feed| - 1], i);
    }
  }

  /** One key: reported unreadable although it is not, or rightly reported or left out. */
  lemma RightlyReported(feed: seq<Event>, key: Ref)
    requires !exists i: nat, j: nat :: Overtaken(feed, i, j)
    ensures key in UnopenableEvents(feed) <==> Latest(feed, key) == Some(Unreadable)
  {
    ReportedThough(feed, key);
    UnopenableMembers(feed, key);
    if Latest(feed, key) == Some(Unreadable) {
      var j := LastEvent(feed, key);
    }
  }

  lemma WronglyReported(feed: seq<Event>, i: nat, j: nat)
    requires Overtaken(feed, i, j)
    ensures feed[j].key in UnopenableEvents(feed) && Latest(feed, feed[j].key) != Some(Unreadable)
  {
    assert Overtaken(feed, i, j) && feed[j].key == feed[j].key;
    ReportedThough(feed, feed[j].key);
  }

  /** The objects reported unreadable are those that are, exactly when no event was overtaken. */
  lemma UnreadableIsCurrent(feed: seq<Event>)
    ensures (forall key :: key in UnopenableEvents(feed) <==> Latest(feed, key) == Some(Unreadable))
      <==> !exists i: nat, j: nat :: Overtaken(feed, i, j)
  {
    if i: nat, j: nat :| Overtaken(feed, i, j) {
      WronglyReported(feed, i, j);
    } else {
      forall key ensures key in UnopenableEvents(feed) <==> Latest(feed, key) == Some(Unreadable) {
        RightlyReported(feed, key);
      }
    }
  }

  /**
   * Deleting what a walk reports unreadable deletes an object that same walk lists as live exactly when
   * an event was overtaken by one that found the object readable.
   */
  lemma LiveIsDropped(feed: seq<Event>)
    ensures (exists o <- Walked(feed) :: o.ref in UnopenableEvents(feed))
      <==> exists i: nat, j: nat :: Overtaken(feed, i, j) && feed[j].change.Present?
  {
    WalkIsLive(feed);
    if o :| o in Walked(feed) && o.ref in UnopenableEvents(feed) {
      DroppedByOvertaking(feed, o);
    }
    if i: nat, j: nat :| Overtaken(feed, i, j) && feed[j].change.Present? {
      var o := Listed(feed[j].key, feed[j].change.slab);
      LatestAt(feed, j);
      WronglyReported(feed, i, j);
      assert o in Walked(feed) && o.ref in UnopenableEvents(feed);
    }
  }

  lemma DroppedByOvertaking(feed: seq<Event>, o: Listed)
    requires o.ref in UnopenableEvents(feed) && Latest(feed, o.ref) == Some(Present(o.slab))
    ensures exists i: nat, j: nat :: Overtaken(feed, i, j) && feed[j].change.Present?
  {
    ReportedThough(feed, o.ref);
    var i: nat, j: nat :| Overtaken(feed, i, j) && feed[j].key == o.ref;
    LatestAt(feed, j);
  }

  // ---------- the feed an account shows while nothing changes ----------

  /** What the feed ends by saying of a key. */
  function Standing(w: State, r: Ref): Option<Change> {
    if r !in w.objects then None
    else if Readable(w, r) then Some(Present(w.placed[r].slab))
    else Some(Unreadable)
  }

  /** The history ends with the objects that now open, on the slabs they are on. */
  ghost predicate EndsIn(feed: seq<Event>, w: State) {
    forall r, slab :: Latest(feed, r) == Some(Present(slab)) <==> Readable(w, r) && w.placed[r].slab == slab
  }

  /** And with the objects that are there and do not open, which it says of no others. */
  ghost predicate Tells(feed: seq<Event>, w: State) {
    EndsIn(feed, w) && forall r :: Latest(feed, r) == Some(Unreadable) <==> r in w.objects && !Readable(w, r)
  }

  lemma WalkedAreReadable(feed: seq<Event>, w: State)
    requires EndsIn(feed, w)
    ensures forall o <- Walked(feed) :: Readable(w, o.ref) && o.slab == w.placed[o.ref].slab
    ensures forall r :: Readable(w, r) ==> exists o <- Walked(feed) :: o.ref == r
  {
    WalkIsLive(feed);
    forall o <- Walked(feed) ensures Readable(w, o.ref) && o.slab == w.placed[o.ref].slab {
      assert Latest(feed, o.ref) == Some(Present(o.slab));
    }
    forall r | Readable(w, r) ensures exists o <- Walked(feed) :: o.ref == r {
      assert Latest(feed, r) == Some(Present(w.placed[r].slab));
      assert Listed(r, w.placed[r].slab) in Walked(feed);
    }
  }

  ghost predicate OncePerKey(feed: seq<Event>) {
    forall i, j :: 0 <= i < j < |feed| ==> feed[i].key != feed[j].key
  }

  /** Each object listed once, at its latest update. */
  method CurrentFeed(w: State) returns (feed: seq<Event>)
    ensures Tells(feed, w) && OncePerKey(feed)
  {
    feed := [];
    var left := w.objects;
    while left != {}
      invariant left <= w.objects && OncePerKey(feed)
      invariant forall e <- feed :: e.key !in left
      invariant forall r :: Latest(feed, r) == if r in left then None else Standing(w, r)
      decreases left
    {
      var r :| r in left;
      left := left - {r};
      assert (feed + [Event(r, Standing(w, r).value)])[..|feed|] == feed;
      feed := feed + [Event(r, Standing(w, r).value)];
    }
  }
}
