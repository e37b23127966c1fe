/**
 * The location envelope: an object's place on the network in a fixed binary layout, with what its
 * slab-mates have in common kept once, apart from what is its own.
 */
module Envelope {
  import opened Bytes
  import opened Records

  const ENVELOPE_VERSION: byte := 1
  const HASH_SIZE: nat := 32
  const SIGNATURE_SIZE: nat := 64

  type Hash = b: Bytes | |b| == HASH_SIZE witness seq(HASH_SIZE, _ => 0)
  type Signature = b: Bytes | |b| == SIGNATURE_SIZE witness seq(SIGNATURE_SIZE, _ => 0)
  type Int64 = x: int | -0x8000_0000_0000_0000 <= x < 0x8000_0000_0000_0000
  type Uint32 = x: nat | x < 0x1_0000_0000

  datatype Sector = Sector(root: Hash, hostKey: Hash)

  /** The half of a location all slab-mates have in common: how the slab is coded and where its sectors are. */
  datatype Slab = Slab(key: Hash, minShards: nat, sectors: seq<Sector>)

  datatype Slice = Slice(slab: Slab, offset: Uint32, length: Uint32)

  /** The fields of a sealed object that belong to no slab. */
  datatype Header = Header(dataKey: Bytes, dataSig: Signature, metaKey: Bytes, meta: Bytes,
                           metaSig: Signature, created: Int64, updated: Int64)

  datatype SealedObject = SealedObject(header: Header, slices: seq<Slice>)

  /** What an encoded object says about one slice: the slab's digest and the object's own range. */
  datatype Extent = Extent(id: Hash, offset: Uint32, length: Uint32)

  /** A decode either yields a value, reports a stale cache, or indexes an empty slice and panics. */
  datatype Decoded<+T> = Value(value: T) | Stale | Panics

  type Digest = Slab -> Hash

  // ---------- fixed-width fields ----------

  const TWO64: nat := 0x1_0000_0000_0000_0000

  function ToUint64(t: Int64): nat { if t < 0 then t + TWO64 else t }

  function ToInt64(u: nat): Int64
    requires u < TWO64
  {
    if u < 0x8000_0000_0000_0000 then u else u - TWO64
  }

  function AppendBlob(b: Bytes): Bytes { ToBE(|b|, 4) + b }

  // ---------- encoding ----------

  function HeaderBytes(h: Header): Bytes {
    AppendBlob(h.dataKey) + (h.dataSig + (AppendBlob(h.metaKey) + (AppendBlob(h.meta) + (h.metaSig
    + (ToBE(ToUint64(h.created), 8) + ToBE(ToUint64(h.updated), 8))))))
  }

  function ExtentOf(digest: Digest, s: Slice): Extent { Extent(digest(s.slab), s.offset, s.length) }

  function ExtentBytes(e: Extent): (b: Bytes) { e.id + (ToBE(e.offset, 4) + ToBE(e.length, 4)) }

  function ExtentsBytes(es: seq<Extent>): Bytes {
    if es == [] then [] else ExtentBytes(es[0]) + ExtentsBytes(es[1..])
  }

  function Extents(digest: Digest, slices: seq<Slice>): seq<Extent> {
    seq(|slices|, i requires 0 <= i < |slices| => ExtentOf(digest, slices[i]))
  }

  function ObjectBytes(digest: Digest, o: SealedObject): Bytes {
    [ENVELOPE_VERSION] + (HeaderBytes(o.header)
    + CountedBytes(Extents(digest, o.slices)))
  }

  function CountedBytes(es: seq<Extent>): Bytes { ToBE(|es|, 2) + ExtentsBytes(es) }

  function SectorBytes(s: Sector): Bytes { s.root + s.hostKey }

  function SectorsBytes(ss: seq<Sector>): Bytes {
    if ss == [] then [] else SectorBytes(ss[0]) + SectorsBytes(ss[1..])
  }

  function SlabBytes(s: Slab): Bytes {
    [ENVELOPE_VERSION] + (s.key + (ToBE(s.minShards, 2) + CountedSectorsBytes(s.sectors)))
  }

  function CountedSectorsBytes(ss: seq<Sector>): Bytes { ToBE(|ss|, 2) + SectorsBytes(ss) }

  lemma {:induction false} ExtentsAppend(es: seq<Extent>, e: Extent)
    ensures ExtentsBytes(es + [e]) == ExtentsBytes(es) + ExtentBytes(e)
  {
    if es == [] {
      assert [e][1..] == [];
    } else {
      ExtentsAppend(es[1..], e);
      assert (es + [e])[1..] == es[1..] + [e];
    }
  }

  lemma {:induction false} SectorsAppend(ss: seq<Sector>, s: Sector)
    ensures SectorsBytes(ss + [s]) == SectorsBytes(ss) + SectorBytes(s)
  {
    if ss == [] {
      assert [s][1..] == [];
    } else {
      SectorsAppend(ss[1..], s);
      assert (ss + [s])[1..] == ss[1..] + [s];
    }
  }

  method EncodeObject(digest: Digest, o: SealedObject) returns (out: Bytes)
    ensures out == ObjectBytes(digest, o)
  {
    out := [ENVELOPE_VERSION];
    out := out + HeaderBytes(o.header);
    out := out + ToBE(|o.slices|, 2);
    ghost var es := Extents(digest, o.slices);
    ghost var head := out;
    for i := 0 to |o.slices|
      invariant out == head + ExtentsBytes(es[..i])
    {
      var slice := o.slices[i];
      ExtentsAppend(es[..i], es[i]);
      assert es[..i + 1] == es[..i] + [es[i]];
      out := out + digest(slice.slab);
      out := out + ToBE(slice.offset, 4);
      out := out + ToBE(slice.length, 4);
    }
    assert es[..|es|] == es;
  }

  method EncodeSlab(s: Slab) returns (out: Bytes)
    ensures out == SlabBytes(s)
  {
    out := [ENVELOPE_VERSION];
    out := out + s.key;
    out := out + ToBE(s.minShards, 2);
    out := out + ToBE(|s.sectors|, 2);
    ghost var head := out;
    for i := 0 to |s.sectors|
      invariant out == head + SectorsBytes(s.sectors[..i])
    {
      SectorsAppend(s.sectors[..i], s.sectors[i]);
      assert s.sectors[..i + 1] == s.sectors[..i] + [s.sectors[i]];
      out := out + s.sectors[i].root;
      out := out + s.sectors[i].hostKey;
    }
    assert s.sectors[..|s.sectors|] == s.sectors;
  }

  // ---------- the specification of decoding: stop at the first field that does not fit ----------

  function Take(b: Bytes, n: nat): (r: Option<(Bytes, Bytes)>)
    ensures r.Some? ==> |r.value.0| == n && b == r.value.0 + r.value.1
  {
    if |b| < n then None else Some((b[..n], b[n..]))
  }

  function TakeUint(b: Bytes, n: nat): (r: Option<(nat, Bytes)>)
    ensures r.Some? ==> r.value.0 < Pow256(n)
  {
    var (v, rest) :- Take(b, n);
    Some((FromBE(v), rest))
  }

  function TakeBlob(b: Bytes): (r: Option<(Bytes, Bytes)>)
    ensures r.Some? ==> |r.value.0| < Pow256(4)
  {
    var (n, rest) :- TakeUint(b, 4);
    Take(rest, n)
  }

  function TakeTime(b: Bytes): Option<(Int64, Bytes)>
  {
    var (u, rest) :- TakeUint(b, 8);
    Pow256Values();
    Some((ToInt64(u), rest))
  }

  function TakeUint32(b: Bytes): Option<(Uint32, Bytes)>
  {
    var (u, rest) :- TakeUint(b, 4);
    Pow256Values();
    Some((u, rest))
  }

  function ParseHeader(b: Bytes): (r: Option<(Header, Bytes)>)
    ensures r.Some? ==> HeaderFits(r.value.0)
  {
    var (dataKey, b1) :- TakeBlob(b);
    var (dataSig, b2) :- Take(b1, SIGNATURE_SIZE);
    var (metaKey, b3) :- TakeBlob(b2);
    var (meta, b4) :- TakeBlob(b3);
    var (metaSig, b5) :- Take(b4, SIGNATURE_SIZE);
    var (created, b6) :- TakeTime(b5);
    var (updated, b7) :- TakeTime(b6);
    Some((Header(dataKey, dataSig, metaKey, meta, metaSig, created, updated), b7))
  }

  function ParseExtent(b: Bytes): Option<(Extent, Bytes)> {
    var (id, b1) :- Take(b, HASH_SIZE);
    var (offset, b2) :- TakeUint32(b1);
    var (length, b3) :- TakeUint32(b2);
    Some((Extent(id, offset, length), b3))
  }

  function ParseExtents(b: Bytes, count: nat): (r: Option<(seq<Extent>, Bytes)>)
    ensures r.Some? ==> |r.value.0| == count
    decreases count
  {
    if count == 0 then Some(([], b)) else
      var (e, b1) :- ParseExtent(b);
      var (es, b2) :- ParseExtents(b1, count - 1);
      Some(([e] + es, b2))
  }

  datatype Indexed = Indexed(header: Header, extents: seq<Extent>)

  function ParseCounted(b: Bytes): (r: Option<(seq<Extent>, Bytes)>)
    ensures r.Some? ==> |r.value.0| < Pow256(2)
  {
    var (count, rest) :- TakeUint(b, 2);
    ParseExtents(rest, count)
  }

  function ParseObject(b: Bytes): Option<(Indexed, Bytes)> {
    var (h, b1) :- ParseHeader(b);
    var (es, b2) :- ParseCounted(b1);
    Some((Indexed(h, es), b2))
  }

  function ParseSector(b: Bytes): Option<(Sector, Bytes)> {
    var (root, b1) :- Take(b, HASH_SIZE);
    var (hostKey, b2) :- Take(b1, HASH_SIZE);
    Some((Sector(root, hostKey), b2))
  }

  function ParseSectors(b: Bytes, count: nat): (r: Option<(seq<Sector>, Bytes)>)
    ensures r.Some? ==> |r.value.0| == count
    decreases count
  {
    if count == 0 then Some(([], b)) else
      var (s, b1) :- ParseSector(b);
      var (ss, b2) :- ParseSectors(b1, count - 1);
      Some(([s] + ss, b2))
  }

  function ParseCountedSectors(b: Bytes): (r: Option<(seq<Sector>, Bytes)>)
    ensures r.Some? ==> |r.value.0| < Pow256(2)
  {
    var (count, rest) :- TakeUint(b, 2);
    ParseSectors(rest, count)
  }

  function ParseSlab(b: Bytes): Option<(Slab, Bytes)> {
    var (key, b1) :- Take(b, HASH_SIZE);
    var (minShards, b2) :- TakeUint(b1, 2);
    var (sectors, b3) :- ParseCountedSectors(b2);
    Some((Slab(key, minShards, sectors), b3))
  }

  /** Trailing bytes are ignored; an empty input reaches the error message's `b[0]` and panics. */
  function Decode<T>(b: Bytes, parse: Bytes -> Option<(T, Bytes)>): Decoded<T> {
    if b == [] then Panics
    else if b[0] != ENVELOPE_VERSION then Stale
    else match parse(b[1..])
      case None => Stale
      case Some((v, _)) => Value(v)
  }

  function ObjectValue(b: Bytes): Decoded<Indexed> { Decode(b, ParseObject) }
  function SlabValue(b: Bytes): Decoded<Slab> { Decode(b, ParseSlab) }

  // ---------- the sticky reader of the source refines that specification ----------

  function Zeros(n: nat): (z: Bytes)
    ensures |z| == n
  {
    seq(n, _ => 0)
  }

  /** Takes fields off a buffer in turn; once one runs short, every later one comes back zeroed. */
  class Reader {
    var b: Bytes
    var err: bool

    constructor (b: Bytes)
      ensures this.b == b && !err
    {
      this.b, err := b, false;
    }

    method Fixed(n: nat) returns (out: Bytes)
      modifies this
      ensures |out| == n
      ensures old(err) ==> err && out == Zeros(n)
      ensures !old(err) ==> match Take(old(b), n)
        case None => err && out == Zeros(n)
        case Some((v, rest)) => !err && out == v && b == rest
    {
      if err || |b| < n {
        err := true;
        return Zeros(n);
      }
      out := b[..n];
      b := b[n..];
    }

    method Uint(n: nat) returns (x: nat)
      modifies this
      ensures x < Pow256(n)
      ensures old(err) ==> err && x == 0
      ensures !old(err) ==> match TakeUint(old(b), n)
        case None => err && x == 0
        case Some((v, rest)) => !err && x == v && b == rest
    {
      var raw := Fixed(n);
      ZerosAreZero(n);
      x := FromBE(raw);
    }

    method Blob() returns (out: Bytes)
      modifies this
      ensures old(err) ==> err
      ensures !old(err) ==> match TakeBlob(old(b))
        case None => err
        case Some((v, rest)) => !err && out == v && b == rest
    {
      var n := Uint(4);
      if err || n == 0 {
        return [];
      }
      out := Fixed(n);
    }

    method Time() returns (t: Int64)
      modifies this
      ensures old(err) ==> err
      ensures !old(err) ==> match TakeTime(old(b))
        case None => err
        case Some((v, rest)) => !err && t == v && b == rest
    {
      var u := Uint(8);
      Pow256Values();
      t := ToInt64(u);
    }

    method Uint32() returns (x: Uint32)
      modifies this
      ensures old(err) ==> err
      ensures !old(err) ==> match TakeUint32(old(b))
        case None => err
        case Some((v, rest)) => !err && x == v && b == rest
    {
      var u := Uint(4);
      Pow256Values();
      x := u;
    }

    method ReadHeader() returns (h: Header)
      modifies this
      ensures old(err) ==> err
      ensures !old(err) ==> match ParseHeader(old(b))
        case None => err
        case Some((v, rest)) => !err && h == v && b == rest
    {
      var dataKey := Blob();
      var dataSig := Fixed(SIGNATURE_SIZE);
      var metaKey := Blob();
      var meta := Blob();
      var metaSig := Fixed(SIGNATURE_SIZE);
      var created := Time();
      var updated := Time();
      h := Header(dataKey, dataSig, metaKey, meta, metaSig, created, updated);
    }

    method ReadExtent() returns (e: Extent)
      modifies this
      ensures old(err) ==> err
      ensures !old(err) ==> match ParseExtent(old(b))
        case None => err
        case Some((v, rest)) => !err && e == v && b == rest
    {
      var id := Fixed(HASH_SIZE);
      var offset := Uint32();
      var length := Uint32();
      e := Extent(id, offset, length);
    }

    /** Reads on to the end even after a failure, as the source's loop does. */
    method ReadExtents(count: nat) returns (es: seq<Extent>)
      modifies this
      ensures |es| == count
      ensures old(err) ==> err
      ensures !old(err) ==> match ParseExtents(old(b), count)
        case None => err
        case Some((v, rest)) => !err && es == v && b == rest
    {
      es := [];
      ghost var whole := if err then None else ParseExtents(b, count);
      AfterNone(ParseExtents(b, count));
      while |es| < count
        invariant |es| <= count
        invariant old(err) ==> err
        invariant GotThrough(whole, es, count - |es|)
      {
        es := OneMoreExtent(es, whole, count - |es| - 1);
      }
    }

    /** `es` has been read of a list that parses as `whole`, and `left` extents are still to come. */
    ghost predicate GotThrough(whole: Option<(seq<Extent>, Bytes)>, es: seq<Extent>, left: nat)
      reads this
    {
      whole == if err then None else After(es, ParseExtents(b, left))
    }

    method OneMoreExtent(es: seq<Extent>, ghost whole: Option<(seq<Extent>, Bytes)>, ghost left: nat)
      returns (more: seq<Extent>)
      requires GotThrough(whole, es, left + 1)
      modifies this
      ensures |more| == |es| + 1 && GotThrough(whole, more, left) && (old(err) ==> err)
    {
      ghost var before, failed := b, err;
      var e := ReadExtent();
      NextExtent(whole, es, before, failed, e, b, err, left);
      more := es + [e];
    }

    method ReadSector() returns (s: Sector)
      modifies this
      ensures old(err) ==> err
      ensures !old(err) ==> match ParseSector(old(b))
        case None => err
        case Some((v, rest)) => !err && s == v && b == rest
    {
      var root := Fixed(HASH_SIZE);
      var hostKey := Fixed(HASH_SIZE);
      s := Sector(root, hostKey);
    }

    method ReadSectors(count: nat) returns (ss: seq<Sector>)
      modifies this
      ensures |ss| == count
      ensures old(err) ==> err
      ensures !old(err) ==> match ParseSectors(old(b), count)
        case None => err
        case Some((v, rest)) => !err && ss == v && b == rest
    {
      ss := [];
      AfterNone(ParseSectors(b, count));
      while |ss| < count
        invariant |ss| <= count
        invariant old(err) ==> err
        invariant !old(err) ==> ParseSectors(old(b), count) == if err then None else After(ss, ParseSectors(b, count - |ss|))
      {
        var s := ReadSector();
        if !err { AfterOne(ss, s, ParseSectors(b, count - |ss| - 1)); }
        ss := ss + [s];
      }
    }
  }

  /** The items already read, followed by what parsing the rest yields. */
  function After<T>(read: seq<T>, rest: Option<(seq<T>, Bytes)>): Option<(seq<T>, Bytes)> {
    match rest
    case None => None
    case Some((later, b)) => Some((read + later, b))
  }

  lemma AfterNone<T>(rest: Option<(seq<T>, Bytes)>)
    ensures After([], rest) == rest
  {
    if rest.Some? { assert [] + rest.value.0 == rest.value.0; }
  }

  lemma AfterOne<T>(read: seq<T>, item: T, rest: Option<(seq<T>, Bytes)>)
    ensures After(read, After([item], rest)) == After(read + [item], rest)
  {
    if rest.Some? { assert read + ([item] + rest.value.0) == (read + [item]) + rest.value.0; }
  }

  /** One more extent read, with `left` still to read after it. */
  lemma NextExtent(whole: Option<(seq<Extent>, Bytes)>, es: seq<Extent>, before: Bytes, failed: bool,
                   e: Extent, b: Bytes, err: bool, left: nat)
    requires whole == if failed then None else After(es, ParseExtents(before, left + 1))
    requires failed ==> err
    requires !failed ==> match ParseExtent(before)
      case None => err
      case Some((v, rest)) => !err && e == v && b == rest
    ensures whole == if err then None else After(es + [e], ParseExtents(b, left))
  {
    if !err {
      AfterOne(es, e, ParseExtents(b, left));
    }
  }

  lemma {:induction false} ZerosAreZero(n: nat)
    ensures FromBE(Zeros(n)) == 0
  {
    if n > 0 {
      ZerosAreZero(n - 1);
      assert Zeros(n)[..n - 1] == Zeros(n - 1);
    }
  }

  method DecodeObject(b: Bytes) returns (r: Decoded<Indexed>)
    ensures r == ObjectValue(b)
  {
    var reader := new Reader(b);
    var version := reader.Fixed(1);
    if version[0] != ENVELOPE_VERSION {
      // The error message quotes b[0].
      return if b == [] then Panics else Stale;
    }
    var h := reader.ReadHeader();
    var count := reader.Uint(2);
    var es := reader.ReadExtents(count);
    if reader.err {
      return Stale;
    }
    r := Value(Indexed(h, es));
  }

  method DecodeSlab(b: Bytes) returns (r: Decoded<Slab>)
    ensures r == SlabValue(b)
  {
    var reader := new Reader(b);
    var version := reader.Fixed(1);
    if version[0] != ENVELOPE_VERSION {
      return if b == [] then Panics else Stale;
    }
    var key := reader.Fixed(HASH_SIZE);
    var minShards := reader.Uint(2);
    var count := reader.Uint(2);
    var sectors := reader.ReadSectors(count);
    if reader.err {
      return Stale;
    }
    r := Value(Slab(key, minShards, sectors));
  }

  // ---------- round trips ----------

  lemma TakeAppend(v: Bytes, rest: Bytes)
    ensures Take(v + rest, |v|) == Some((v, rest))
  {
  }

  lemma UintRoundTrip(x: nat, n: nat, rest: Bytes)
    ensures TakeUint(ToBE(x, n) + rest, n) == Some((x % Pow256(n), rest))
  {
    TakeAppend(ToBE(x, n), rest);
    BERoundTrip(x, n);
  }

  lemma UintExact(x: nat, n: nat, rest: Bytes)
    requires x < Pow256(n)
    ensures TakeUint(ToBE(x, n) + rest, n) == Some((x, rest))
  {
    UintRoundTrip(x, n, rest);
  }

  lemma Uint32RoundTrip(x: Uint32, rest: Bytes)
    ensures TakeUint32(ToBE(x, 4) + rest) == Some((x, rest))
  {
    Pow256Values();
    UintExact(x, 4, rest);
  }

  lemma TimeRoundTrip(t: Int64, rest: Bytes)
    ensures TakeTime(ToBE(ToUint64(t), 8) + rest) == Some((t, rest))
  {
    UintRoundTrip(ToUint64(t), 8, rest);
    Pow256Values();
  }

  lemma BlobRoundTrip(v: Bytes, rest: Bytes)
    requires |v| < Pow256(4)
    ensures TakeBlob(AppendBlob(v) + rest) == Some((v, rest))
  {
    UintExact(|v|, 4, v + rest);
    assert AppendBlob(v) + rest == ToBE(|v|, 4) + (v + rest);
    TakeAppend(v, rest);
  }

  /** The widths the layout gives each length: four bytes for a blob, two for a count. */
  predicate HeaderFits(h: Header) {
    |h.dataKey| < Pow256(4) && |h.metaKey| < Pow256(4) && |h.meta| < Pow256(4)
  }

  predicate SlabFits(s: Slab) { s.minShards < Pow256(2) && |s.sectors| < Pow256(2) }

  lemma HeaderRoundTrip(h: Header, rest: Bytes)
    requires HeaderFits(h)
    ensures ParseHeader(HeaderBytes(h) + rest) == Some((h, rest))
  {
    var t7 := ToBE(ToUint64(h.updated), 8) + rest;
    var t6 := ToBE(ToUint64(h.created), 8) + t7;
    var t5 := h.metaSig + t6;
    var t4 := AppendBlob(h.meta) + t5;
    var t3 := AppendBlob(h.metaKey) + t4;
    var t2 := h.dataSig + t3;
    assert HeaderBytes(h) + rest == AppendBlob(h.dataKey) + t2;
    BlobRoundTrip(h.dataKey, t2);
    TakeAppend(h.dataSig, t3);
    BlobRoundTrip(h.metaKey, t4);
    BlobRoundTrip(h.meta, t5);
    TakeAppend(h.metaSig, t6);
    TimeRoundTrip(h.created, t7);
    TimeRoundTrip(h.updated, rest);
  }

  lemma ExtentRoundTrip(e: Extent, rest: Bytes)
    ensures ParseExtent(ExtentBytes(e) + rest) == Some((e, rest))
  {
    var t2 := ToBE(e.length, 4) + rest;
    var t1 := ToBE(e.offset, 4) + t2;
    assert ExtentBytes(e) + rest == e.id + t1;
    TakeAppend(e.id, t1);
    Uint32RoundTrip(e.offset, t2);
    Uint32RoundTrip(e.length, rest);
  }

  lemma {:induction false} ExtentsRoundTrip(es: seq<Extent>, rest: Bytes)
    ensures ParseExtents(ExtentsBytes(es) + rest, |es|) == Some((es, rest))
  {
    if es == [] {
      assert ExtentsBytes(es) + rest == rest;
    } else {
      var tail := ExtentsBytes(es[1..]) + rest;
      assert ExtentsBytes(es) + rest == ExtentBytes(es[0]) + tail;
      ExtentRoundTrip(es[0], tail);
      ExtentsRoundTrip(es[1..], rest);
      assert [es[0]] + es[1..] == es;
    }
  }

  lemma SectorRoundTrip(s: Sector, rest: Bytes)
    ensures ParseSector(SectorBytes(s) + rest) == Some((s, rest))
  {
    assert SectorBytes(s) + rest == s.root + (s.hostKey + rest);
    TakeAppend(s.root, s.hostKey + rest);
    TakeAppend(s.hostKey, rest);
  }

  lemma {:induction false} SectorsRoundTrip(ss: seq<Sector>, rest: Bytes)
    ensures ParseSectors(SectorsBytes(ss) + rest, |ss|) == Some((ss, rest))
  {
    if ss == [] {
      assert SectorsBytes(ss) + rest == rest;
    } else {
      var tail := SectorsBytes(ss[1..]) + rest;
      assert SectorsBytes(ss) + rest == SectorBytes(ss[0]) + tail;
      SectorRoundTrip(ss[0], tail);
      SectorsRoundTrip(ss[1..], rest);
      assert [ss[0]] + ss[1..] == ss;
    }
  }

  lemma CountedRoundTrip(es: seq<Extent>)
    requires |es| < Pow256(2)
    ensures ParseCounted(CountedBytes(es)) == Some((es, []))
  {
    var body := ExtentsBytes(es);
    UintExact(|es|, 2, body);
    ExtentsRoundTrip(es, []);
    assert body + [] == body;
  }

  lemma DropFirst(v: byte, rest: Bytes)
    ensures ([v] + rest)[1..] == rest
  {
  }

  lemma ParseObjectBytes(digest: Digest, o: SealedObject)
    requires HeaderFits(o.header) && |o.slices| < Pow256(2)
    ensures ParseObject(ObjectBytes(digest, o)[1..]) == Some((Indexed(o.header, Extents(digest, o.slices)), []))
  {
    var es := Extents(digest, o.slices);
    DropFirst(ENVELOPE_VERSION, HeaderBytes(o.header) + CountedBytes(es));
    HeaderRoundTrip(o.header, CountedBytes(es));
    CountedRoundTrip(es);
  }

  lemma ParseSlabBytes(s: Slab)
    requires SlabFits(s)
    ensures ParseSlab(SlabBytes(s)[1..]) == Some((s, []))
  {
    var t2 := CountedSectorsBytes(s.sectors);
    var t1 := ToBE(s.minShards, 2) + t2;
    DropFirst(ENVELOPE_VERSION, s.key + t1);
    TakeAppend(s.key, t1);
    UintExact(s.minShards, 2, t2);
    CountedSectorsRoundTrip(s.sectors);
  }

  lemma CountedSectorsRoundTrip(ss: seq<Sector>)
    requires |ss| < Pow256(2)
    ensures ParseCountedSectors(CountedSectorsBytes(ss)) == Some((ss, []))
  {
    var body := SectorsBytes(ss);
    UintExact(|ss|, 2, body);
    SectorsRoundTrip(ss, []);
    assert body + [] == body;
  }

  /** A slab entry decodes to what was encoded exactly when its counts fit the two bytes they are given. */
  lemma SlabRoundTrip(s: Slab)
    ensures SlabValue(SlabBytes(s)) == Value(s) <==> SlabFits(s)
  {
    if SlabFits(s) {
      ParseSlabBytes(s);
    }
  }

  // ---------- truncation ----------

  /** Reading only looks at what it consumes: more bytes after it change nothing. */
  lemma TakeExtends(b: Bytes, n: nat, more: Bytes)
    requires Take(b, n).Some?
    ensures Take(b + more, n) == Some((Take(b, n).value.0, Take(b, n).value.1 + more))
  {
    assert (b + more)[..n] == b[..n];
    assert (b + more)[n..] == b[n..] + more;
  }

  lemma BlobExtends(b: Bytes, more: Bytes)
    requires TakeBlob(b).Some?
    ensures TakeBlob(b + more) == Some((TakeBlob(b).value.0, TakeBlob(b).value.1 + more))
  {
    TakeExtends(b, 4, more);
    var (n, rest) := TakeUint(b, 4).value;
    TakeExtends(rest, n, more);
  }

  lemma HeaderExtends(b: Bytes, more: Bytes)
    requires ParseHeader(b).Some?
    ensures ParseHeader(b + more) == Some((ParseHeader(b).value.0, ParseHeader(b).value.1 + more))
  {
    BlobExtends(b, more);
    var b1 := TakeBlob(b).value.1;
    TakeExtends(b1, SIGNATURE_SIZE, more);
    var b2 := Take(b1, SIGNATURE_SIZE).value.1;
    BlobExtends(b2, more);
    var b3 := TakeBlob(b2).value.1;
    BlobExtends(b3, more);
    var b4 := TakeBlob(b3).value.1;
    TakeExtends(b4, SIGNATURE_SIZE, more);
    var b5 := Take(b4, SIGNATURE_SIZE).value.1;
    TakeExtends(b5, 8, more);
    var b6 := TakeTime(b5).value.1;
    TakeExtends(b6, 8, more);
  }

  lemma ExtentExtends(b: Bytes, more: Bytes)
    requires ParseExtent(b).Some?
    ensures ParseExtent(b + more) == Some((ParseExtent(b).value.0, ParseExtent(b).value.1 + more))
  {
    TakeExtends(b, HASH_SIZE, more);
    var b1 := Take(b, HASH_SIZE).value.1;
    TakeExtends(b1, 4, more);
    var b2 := TakeUint32(b1).value.1;
    TakeExtends(b2, 4, more);
  }

  lemma {:induction false} ExtentsExtend(b: Bytes, count: nat, more: Bytes)
    requires ParseExtents(b, count).Some?
    ensures ParseExtents(b + more, count) == Some((ParseExtents(b, count).value.0, ParseExtents(b, count).value.1 + more))
    decreases count
  {
    if count > 0 {
      ExtentExtends(b, more);
      ExtentsExtend(ParseExtent(b).value.1, count - 1, more);
    }
  }

  lemma ObjectExtends(b: Bytes, more: Bytes)
    requires ParseObject(b).Some?
    ensures ParseObject(b + more) == Some((ParseObject(b).value.0, ParseObject(b).value.1 + more))
  {
    HeaderExtends(b, more);
    CountedExtends(ParseHeader(b).value.1, more);
  }

  lemma CountedExtends(b: Bytes, more: Bytes)
    requires ParseCounted(b).Some?
    ensures ParseCounted(b + more) == Some((ParseCounted(b).value.0, ParseCounted(b).value.1 + more))
  {
    TakeExtends(b, 2, more);
    var (count, rest) := TakeUint(b, 2).value;
    ExtentsExtend(rest, count, more);
  }

  lemma SectorExtends(b: Bytes, more: Bytes)
    requires ParseSector(b).Some?
    ensures ParseSector(b + more) == Some((ParseSector(b).value.0, ParseSector(b).value.1 + more))
  {
    TakeExtends(b, HASH_SIZE, more);
    TakeExtends(Take(b, HASH_SIZE).value.1, HASH_SIZE, more);
  }

  lemma {:induction false} SectorsExtend(b: Bytes, count: nat, more: Bytes)
    requires ParseSectors(b, count).Some?
    ensures ParseSectors(b + more, count) == Some((ParseSectors(b, count).value.0, ParseSectors(b, count).value.1 + more))
    decreases count
  {
    if count > 0 {
      SectorExtends(b, more);
      SectorsExtend(ParseSector(b).value.1, count - 1, more);
    }
  }

  lemma SlabExtends(b: Bytes, more: Bytes)
    requires ParseSlab(b).Some?
    ensures ParseSlab(b + more) == Some((ParseSlab(b).value.0, ParseSlab(b).value.1 + more))
  {
    TakeExtends(b, HASH_SIZE, more);
    var b1 := Take(b, HASH_SIZE).value.1;
    TakeExtends(b1, 2, more);
    var b2 := TakeUint(b1, 2).value.1;
    CountedSectorsExtend(b2, more);
  }

  lemma CountedSectorsExtend(b: Bytes, more: Bytes)
    requires ParseCountedSectors(b).Some?
    ensures ParseCountedSectors(b + more) == Some((ParseCountedSectors(b).value.0, ParseCountedSectors(b).value.1 + more))
  {
    TakeExtends(b, 2, more);
    var (count, rest) := TakeUint(b, 2).value;
    SectorsExtend(rest, count, more);
  }

  lemma ObjectNeedsAll(b: Bytes, more: Bytes)
    requires more != [] && ParseObject(b + more).Some? && ParseObject(b + more).value.1 == []
    ensures ParseObject(b) == None
  {
    if ParseObject(b).Some? { ObjectExtends(b, more); }
  }

  lemma SlabNeedsAll(b: Bytes, more: Bytes)
    requires more != [] && ParseSlab(b + more).Some? && ParseSlab(b + more).value.1 == []
    ensures ParseSlab(b) == None
  {
    if ParseSlab(b).Some? { SlabExtends(b, more); }
  }

  lemma CutBody(whole: Bytes, k: nat)
    requires 0 < k < |whole|
    ensures whole[..k][1..] + whole[k..] == whole[1..] && whole[..k][0] == whole[0]
  {
  }

  /** Every non-empty proper prefix of an encoded object is reported stale, never misread. */
  lemma TruncatedObject(digest: Digest, o: SealedObject, k: nat)
    requires HeaderFits(o.header) && |o.slices| < Pow256(2)
    requires 0 < k < |ObjectBytes(digest, o)|
    ensures ObjectValue(ObjectBytes(digest, o)[..k]) == Stale
  {
    var whole := ObjectBytes(digest, o);
    CutBody(whole, k);
    ParseObjectBytes(digest, o);
    ObjectNeedsAll(whole[..k][1..], whole[k..]);
  }

  /** Every non-empty proper prefix of an encoded slab is reported stale, never misread. */
  lemma TruncatedSlab(s: Slab, k: nat)
    requires SlabFits(s) && 0 < k < |SlabBytes(s)|
    ensures SlabValue(SlabBytes(s)[..k]) == Stale
  {
    var whole := SlabBytes(s);
    CutBody(whole, k);
    ParseSlabBytes(s);
    SlabNeedsAll(whole[..k][1..], whole[k..]);
  }

  /** Decoding panics on the empty input and on no other. */
  lemma PanicsExactlyOnEmpty(b: Bytes)
    ensures ObjectValue(b) == Panics <==> b == []
    ensures SlabValue(b) == Panics <==> b == []
  {
  }

  // ---------- split and join ----------

  datatype Location = Location(ref: Bytes, slabs: seq<Hash>, bytes: Bytes)

  datatype SlabLocation = SlabLocation(id: Hash, bytes: Bytes)

  method SplitLocation(digest: Digest, ref: Bytes, o: SealedObject) returns (location: Location, shared: seq<SlabLocation>)
    ensures location.ref == ref && location.bytes == ObjectBytes(digest, o)
    ensures location.slabs == seq(|o.slices|, i requires 0 <= i < |o.slices| => digest(o.slices[i].slab))
    ensures shared == SharedOf(digest, o.slices)
  {
    var encoded := EncodeObject(digest, o);
    var slabs: seq<Hash> := [];
    shared := [];
    for i := 0 to |o.slices|
      invariant slabs == seq(i, j requires 0 <= j < i => digest(o.slices[j].slab))
      invariant shared == SharedOf(digest, o.slices)[..i]
    {
      var id := digest(o.slices[i].slab);
      slabs := slabs + [id];
      var bytes := EncodeSlab(o.slices[i].slab);
      shared := shared + [SlabLocation(id, bytes)];
    }
    location := Location(ref, slabs, encoded);
  }

  function SharedOf(digest: Digest, slices: seq<Slice>): (shared: seq<SlabLocation>)
    ensures |shared| == |slices|
  {
    seq(|slices|, i requires 0 <= i < |slices| =>
      SlabLocation(digest(slices[i].slab), SlabBytes(slices[i].slab)))
  }

  /** The slab cache after each shared entry is put under its digest, a later entry replacing an earlier one. */
  function Cache(shared: seq<SlabLocation>): map<Hash, Bytes> {
    if shared == [] then map[] else
      var last := shared[|shared| - 1];
      Cache(shared[..|shared| - 1])[last.id := last.bytes]
  }

  type SlabDecoder = Bytes -> Decoded<Slab>

  /** The slices an index and a slab cache reassemble into, failing at the first slab that fails. */
  function JoinSlices(es: seq<Extent>, cache: map<Hash, Bytes>, decode: SlabDecoder): Decoded<seq<Slice>> {
    if es == [] then Value([])
    else if es[0].id !in cache then Stale
    else match decode(cache[es[0].id])
      case Stale => Stale
      case Panics => Panics
      case Value(slab) =>
        Behind([Slice(slab, es[0].offset, es[0].length)], JoinSlices(es[1..], cache, decode))
  }

  function Behind<T>(first: seq<T>, rest: Decoded<seq<T>>): Decoded<seq<T>> {
    match rest
    case Stale => Stale
    case Panics => Panics
    case Value(later) => Value(first + later)
  }

  lemma BehindNone<T>(rest: Decoded<seq<T>>)
    ensures Behind([], rest) == rest
  {
    if rest.Value? { assert [] + rest.value == rest.value; }
  }

  lemma BehindOne<T>(first: seq<T>, item: T, rest: Decoded<seq<T>>)
    ensures Behind(first, Behind([item], rest)) == Behind(first + [item], rest)
  {
    if rest.Value? { assert first + ([item] + rest.value) == (first + [item]) + rest.value; }
  }

  method JoinExtents(es: seq<Extent>, cache: map<Hash, Bytes>) returns (r: Decoded<seq<Slice>>)
    ensures r == JoinSlices(es, cache, SlabValue)
  {
    var slices: seq<Slice> := [];
    BehindNone(JoinSlices(es, cache, SlabValue));
    for i := 0 to |es|
      invariant JoinSlices(es, cache, SlabValue) == Behind(slices, JoinSlices(es[i..], cache, SlabValue))
    {
      if es[i].id !in cache {
        return Stale;
      }
      var slab := DecodeSlab(cache[es[i].id]);
      match slab {
        case Stale => return Stale;
        case Panics => return Panics;
        case Value(s) =>
          // Its own range over the slab it shares.
          var slice := Slice(s, es[i].offset, es[i].length);
          BehindOne(slices, slice, JoinSlices(es[i + 1..], cache, SlabValue));
          assert es[i..][1..] == es[i + 1..];
          slices := slices + [slice];
      }
    }
    assert slices + [] == slices;
    r := Value(slices);
  }

  method JoinLocation(location: Location, cache: map<Hash, Bytes>) returns (r: Decoded<SealedObject>)
    ensures r == Joined(location.bytes, cache)
  {
    if |location.bytes| == 0 {
      return Stale;
    }
    var decoded := DecodeObject(location.bytes);
    match decoded {
      case Stale => return Stale;
      case Panics => return Panics;
      case Value(indexed) =>
        var slices := JoinExtents(indexed.extents, cache);
        r := WithHeader(indexed.header, slices);
    }
  }

  function WithHeader(header: Header, slices: Decoded<seq<Slice>>): Decoded<SealedObject> {
    match slices
    case Stale => Stale
    case Panics => Panics
    case Value(ss) => Value(SealedObject(header, ss))
  }

  function Joined(bytes: Bytes, cache: map<Hash, Bytes>): Decoded<SealedObject> {
    if bytes == [] then Stale
    else match ObjectValue(bytes)
      case Stale => Stale
      case Panics => Panics
      case Value(indexed) => WithHeader(indexed.header, JoinSlices(indexed.extents, cache, SlabValue))
  }

  /** Within one object, slices with equal digests share the same slab half. */
  ghost predicate DigestsDistinguish(digest: Digest, slices: seq<Slice>) {
    forall i, j :: 0 <= i < |slices| && 0 <= j < |slices| && digest(slices[i].slab) == digest(slices[j].slab)
      ==> slices[i].slab == slices[j].slab
  }

  predicate ObjectFits(o: SealedObject) {
    && HeaderFits(o.header)
    && |o.slices| < Pow256(2)
    && forall s <- o.slices :: SlabFits(s.slab)
  }

  ghost predicate Holds(digest: Digest, slices: seq<Slice>, cache: map<Hash, Bytes>) {
    forall s <- slices :: digest(s.slab) in cache && cache[digest(s.slab)] == SlabBytes(s.slab)
  }

  lemma {:induction false} CacheHolds(digest: Digest, slices: seq<Slice>)
    requires DigestsDistinguish(digest, slices)
    ensures Holds(digest, slices, Cache(SharedOf(digest, slices)))
  {
    if slices != [] {
      var n := |slices| - 1;
      var front, last := slices[..n], slices[n];
      var shared := SharedOf(digest, slices);
      assert shared[..n] == SharedOf(digest, front);
      CacheHolds(digest, front);
      OneMoreHeld(digest, slices, Cache(shared[..n]));
      assert Cache(shared) == Cache(shared[..n])[digest(last.slab) := SlabBytes(last.slab)];
    }
  }

  lemma OneMoreHeld(digest: Digest, slices: seq<Slice>, cache: map<Hash, Bytes>)
    requires slices != [] && DigestsDistinguish(digest, slices) && Holds(digest, slices[..|slices| - 1], cache)
    ensures var slab := slices[|slices| - 1].slab; Holds(digest, slices, cache[digest(slab) := SlabBytes(slab)])
  {
    var n := |slices| - 1;
    forall s <- slices
      ensures digest(s.slab) == digest(slices[n].slab) || s in slices[..n]
      ensures digest(s.slab) == digest(slices[n].slab) ==> s.slab == slices[n].slab
    {
      var i :| 0 <= i < |slices| && slices[i] == s;
      assert i < n ==> slices[..n][i] == s;
    }
  }

  lemma {:induction false} JoinHeld(digest: Digest, slices: seq<Slice>, cache: map<Hash, Bytes>, decode: SlabDecoder)
    requires forall s <- slices :: digest(s.slab) in cache && decode(cache[digest(s.slab)]) == Value(s.slab)
    ensures JoinSlices(Extents(digest, slices), cache, decode) == Value(slices)
  {
    if slices != [] {
      assert Extents(digest, slices)[1..] == Extents(digest, slices[1..]);
      JoinHeld(digest, slices[1..], cache, decode);
      assert [slices[0]] + slices[1..] == slices;
    }
  }

  lemma {:induction false} JoinedSlabsDecoded(es: seq<Extent>, cache: map<Hash, Bytes>, decode: SlabDecoder)
    requires JoinSlices(es, cache, decode).Value?
    ensures |JoinSlices(es, cache, decode).value| == |es|
    ensures forall s <- JoinSlices(es, cache, decode).value :: exists b :: decode(b) == Value(s.slab)
  {
    if es != [] {
      JoinedSlabsDecoded(es[1..], cache, decode);
      assert decode(cache[es[0].id]).Value?;
    }
  }

  lemma FittingJoins(digest: Digest, o: SealedObject)
    requires DigestsDistinguish(digest, o.slices) && ObjectFits(o)
    ensures Joined(ObjectBytes(digest, o), Cache(SharedOf(digest, o.slices))) == Value(o)
  {
    ParseObjectBytes(digest, o);
    var cache := Cache(SharedOf(digest, o.slices));
    CacheHolds(digest, o.slices);
    forall s <- o.slices
      ensures digest(s.slab) in cache && SlabValue(cache[digest(s.slab)]) == Value(s.slab)
    {
      SlabRoundTrip(s.slab);
    }
    JoinHeld(digest, o.slices, cache, SlabValue);
  }

  lemma DecodedSlabFits(b: Bytes)
    requires SlabValue(b).Value?
    ensures SlabFits(SlabValue(b).value)
  {
  }

  lemma DecodedObjectFits(b: Bytes)
    requires ObjectValue(b).Value?
    ensures HeaderFits(ObjectValue(b).value.header) && |ObjectValue(b).value.extents| < Pow256(2)
  {
  }

  lemma JoinedFits(bytes: Bytes, cache: map<Hash, Bytes>)
    requires Joined(bytes, cache).Value?
    ensures ObjectFits(Joined(bytes, cache).value)
  {
    DecodedObjectFits(bytes);
    var es := ObjectValue(bytes).value.extents;
    JoinedSlabsDecoded(es, cache, SlabValue);
    forall s <- JoinSlices(es, cache, SlabValue).value
      ensures SlabFits(s.slab)
    {
      var b :| SlabValue(b) == Value(s.slab);
      DecodedSlabFits(b);
    }
  }

  /**
   * Splitting an object, caching its shared halves and joining them again gives back that object,
   * exactly when every length fits the width the layout gives it.
   */
  lemma SplitThenJoin(digest: Digest, o: SealedObject)
    requires DigestsDistinguish(digest, o.slices)
    ensures Joined(ObjectBytes(digest, o), Cache(SharedOf(digest, o.slices))) == Value(o) <==> ObjectFits(o)
  {
    if ObjectFits(o) {
      FittingJoins(digest, o);
    } else if Joined(ObjectBytes(digest, o), Cache(SharedOf(digest, o.slices))) == Value(o) {
      JoinedFits(ObjectBytes(digest, o), Cache(SharedOf(digest, o.slices)));
    }
  }
}
