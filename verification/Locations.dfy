/** The location cache: each object's own half, and one shared half for every slab, kept and lost separately. */
module Locations {
  import opened Bytes
  import opened Records
  import opened Envelope

  /** An object's own half as it is cached: the slabs it sits on and its own encoded fields. */
  datatype Half = Half(slabs: seq<Hash>, bytes: Bytes)

  /**
   * What the network says of where objects are. `half` and `shared` are what splitting an object's
   * location yields; `opens` is the object a sealed location opens as, if it opens at all.
   */
  datatype Locator = Locator(
    sealed: Bytes -> SealedObject,
    digest: Digest,
    half: Bytes -> Half,
    shared: Hash -> Bytes,
    opens: SealedObject -> Option<Bytes>)

  function SlabsUnder(digest: Digest, slices: seq<Slice>): (ids: seq<Hash>)
    ensures |ids| == |slices| && forall i :: 0 <= i < |slices| ==> ids[i] == digest(slices[i].slab)
  {
    if slices == [] then [] else [digest(slices[0].slab)] + SlabsUnder(digest, slices[1..])
  }

  /** A digest determines the shared half stored under it, and every count fits its width. */
  ghost predicate SplitsTruly(l: Locator) {
    forall ref {:trigger l.half(ref)} ::
      && l.half(ref) == Half(SlabsUnder(l.digest, l.sealed(ref).slices), ObjectBytes(l.digest, l.sealed(ref)))
      && ObjectFits(l.sealed(ref)) && l.opens(l.sealed(ref)) == Some(ref)
      && SharedTruly(l, l.sealed(ref).slices)
  }

  ghost predicate SharedTruly(l: Locator, slices: seq<Slice>) {
    forall s <- slices :: l.shared(l.digest(s.slab)) == SlabBytes(s.slab)
  }

  /** The halves that splitting these objects yields, when no two slabs have one digest. */
  function SplitAll(sealed: Bytes -> SealedObject, digest: Digest, slabOf: Hash -> Slab,
                    opens: SealedObject -> Option<Bytes>): Locator {
    Locator(sealed, digest,
            ref => Half(SlabsUnder(digest, sealed(ref).slices), ObjectBytes(digest, sealed(ref))),
            (h: Hash) => SlabBytes(slabOf(h)), opens)
  }

  lemma SplitAllIsTrue(sealed: Bytes -> SealedObject, digest: Digest, slabOf: Hash -> Slab,
                       opens: SealedObject -> Option<Bytes>)
    requires forall ref :: ObjectFits(sealed(ref)) && opens(sealed(ref)) == Some(ref)
    requires forall ref, s :: s in sealed(ref).slices ==> slabOf(digest(s.slab)) == s.slab
    ensures SplitsTruly(SplitAll(sealed, digest, slabOf, opens))
  {
    var l := SplitAll(sealed, digest, slabOf, opens);
    forall ref ensures SharedTruly(l, l.sealed(ref).slices) {
      assert forall s <- sealed(ref).slices :: slabOf(digest(s.slab)) == s.slab;
    }
  }

  /** Every shared half held is the one its digest determines, whichever object's lookup stored it last. */
  ghost predicate SharesTruly(l: Locator, shared: map<Hash, Bytes>) {
    forall h {:trigger shared[h]} | h in shared :: shared[h] == l.shared(h)
  }

  lemma {:induction false} JoinMissing(digest: Digest, slices: seq<Slice>, cache: map<Hash, Bytes>, decode: SlabDecoder)
    requires forall s <- slices :: digest(s.slab) in cache ==> decode(cache[digest(s.slab)]) == Value(s.slab)
    requires exists s <- slices :: digest(s.slab) !in cache
    ensures JoinSlices(Extents(digest, slices), cache, decode) == Stale
  {
    assert Extents(digest, slices)[1..] == Extents(digest, slices[1..]);
    if digest(slices[0].slab) in cache {
      JoinMissing(digest, slices[1..], cache, decode);
    }
  }

  lemma HalfDecodes(digest: Digest, o: SealedObject)
    requires ObjectFits(o)
    ensures ObjectBytes(digest, o) != []
    ensures ObjectValue(ObjectBytes(digest, o)) == Value(Indexed(o.header, Extents(digest, o.slices)))
  {
    ParseObjectBytes(digest, o);
  }

  /** The shared halves held for these slices decode to the slabs they are on. */
  ghost predicate Decodes(digest: Digest, slices: seq<Slice>, cache: map<Hash, Bytes>) {
    forall s <- slices :: digest(s.slab) in cache ==> SlabValue(cache[digest(s.slab)]) == Value(s.slab)
  }

  lemma SharedDecode(l: Locator, o: SealedObject, shared: map<Hash, Bytes>)
    requires SharedTruly(l, o.slices) && ObjectFits(o) && SharesTruly(l, shared)
    ensures Decodes(l.digest, o.slices, shared)
  {
    forall s <- o.slices
      ensures l.digest(s.slab) in shared ==> SlabValue(shared[l.digest(s.slab)]) == Value(s.slab)
    {
      SlabRoundTrip(s.slab);
    }
  }

  lemma SlicesJoin(digest: Digest, slices: seq<Slice>, shared: map<Hash, Bytes>)
    requires Decodes(digest, slices, shared)
    ensures JoinSlices(Extents(digest, slices), shared, SlabValue)
      == if forall h <- SlabsUnder(digest, slices) :: h in shared then Value(slices) else Stale
  {
    var ids := SlabsUnder(digest, slices);
    if forall h <- ids :: h in shared {
      forall s <- slices ensures digest(s.slab) in shared {
        var i :| 0 <= i < |slices| && slices[i] == s;
        assert ids[i] in ids;
      }
      JoinHeld(digest, slices, shared, SlabValue);
    } else {
      var i :| 0 <= i < |ids| && ids[i] !in shared;
      assert slices[i] in slices && digest(slices[i].slab) !in shared;
      JoinMissing(digest, slices, shared, SlabValue);
    }
  }

  /**
   * Joining an object's own half with whatever shared halves are held gives back the object that was
   * split, or nothing: nothing exactly when the shared half of one of its slabs is not held.
   */
  lemma JoinedIsSplit(l: Locator, ref: Bytes, shared: map<Hash, Bytes>)
    requires SplitsTruly(l) && SharesTruly(l, shared)
    ensures Joined(l.half(ref).bytes, shared)
      == if forall h <- l.half(ref).slabs :: h in shared then Value(l.sealed(ref)) else Stale
  {
    var o, half := l.sealed(ref), l.half(ref);
    HalfDecodes(l.digest, o);
    SharedDecode(l, o, shared);
    SlicesJoin(l.digest, o.slices, shared);
    Whole(o, half.bytes, Extents(l.digest, o.slices), shared);
  }

  lemma Whole(o: SealedObject, bytes: Bytes, es: seq<Extent>, shared: map<Hash, Bytes>)
    requires bytes != [] && ObjectValue(bytes) == Value(Indexed(o.header, es))
    ensures Joined(bytes, shared) == WithHeader(o.header, JoinSlices(es, shared, SlabValue))
  {
  }

  lemma OpensAsItself(l: Locator, ref: Bytes)
    requires SplitsTruly(l)
    ensures l.opens(l.sealed(ref)) == Some(ref)
  {
    assert l.half(ref) == l.half(ref);
  }

  /** What splitting an object's location returns is exactly what the cache may hold. */
  lemma SplitIsHalves(l: Locator, ref: Bytes, location: Location, shared: seq<SlabLocation>)
    requires SplitsTruly(l) && shared == SharedOf(l.digest, l.sealed(ref).slices)
    requires location.bytes == ObjectBytes(l.digest, l.sealed(ref)) && |location.slabs| == |shared|
    requires forall i :: 0 <= i < |shared| ==> location.slabs[i] == l.digest(l.sealed(ref).slices[i].slab)
    ensures Half(location.slabs, location.bytes) == l.half(ref)
    ensures forall i :: 0 <= i < |shared| ==> shared[i].id == location.slabs[i] && shared[i].bytes == l.shared(shared[i].id)
  {
    var slices := l.sealed(ref).slices;
    assert l.half(ref) == Half(SlabsUnder(l.digest, slices), location.bytes);
    assert location.slabs == SlabsUnder(l.digest, slices);
    forall i | 0 <= i < |shared| ensures shared[i].bytes == l.shared(shared[i].id) {
      assert slices[i] in slices;
    }
  }
}
