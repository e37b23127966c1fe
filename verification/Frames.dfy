/**
 * The framing header: a record's length, kind and id in front of its sealed bytes, which is what lets
 * a blob be read record by record as far as it is undamaged.
 */
module Frames {
  import opened Bytes
  import opened Records

  const MAGIC: Bytes := [0x4D, 0x6E]  // 'M', 'n'
  const FRAME_VERSION: byte := 1
  const HEADER_SIZE: nat := 5
  const MAX_VARINT_LEN_64: nat := 10
  const UINT64: nat := 0x1_0000_0000_0000_0000

  datatype Frame = Frame(kind: Kind, id: Id, sealed: Bytes)

  type Unframed = Parsed<Frame>

  // ---------- unsigned base-128 varints ----------

  function PutUvarint(x: nat): (b: Bytes)
    ensures |b| > 0
  {
    if x < 128 then [x as byte] else [(x % 128 + 128) as byte] + PutUvarint(x / 128)
  }

  datatype Varint = Unreadable | Read(value: nat, size: nat)

  /** Reads a varint whose first `i` bytes have been consumed; refuses what overflows 64 bits. */
  function UvarintFrom(b: Bytes, i: nat): (v: Varint)
    ensures v.Read? ==> 0 < v.size <= |b|
  {
    if b == [] || i >= MAX_VARINT_LEN_64 then Unreadable
    else if b[0] < 128 then
      if i == MAX_VARINT_LEN_64 - 1 && b[0] > 1 then Unreadable else Read(b[0] as nat, 1)
    else
      match UvarintFrom(b[1..], i + 1)
      case Unreadable => Unreadable
      case Read(value, size) => Read((b[0] - 128) as nat + 128 * value, size + 1)
  }

  function Uvarint(b: Bytes): Varint { UvarintFrom(b, 0) }

  /** 2^(64 - 7i): what is left of a 64-bit value once `i` groups of seven bits are read. */
  function Remaining(i: nat): nat
    requires i < MAX_VARINT_LEN_64
    decreases MAX_VARINT_LEN_64 - i
  {
    if i == MAX_VARINT_LEN_64 - 1 then 2 else 128 * Remaining(i + 1)
  }

  lemma {:induction false} VarintRoundTrip(x: nat, i: nat, rest: Bytes)
    requires i < MAX_VARINT_LEN_64 && x < Remaining(i)
    ensures UvarintFrom(PutUvarint(x) + rest, i) == Read(x, |PutUvarint(x)|)
    decreases x
  {
    var b := PutUvarint(x) + rest;
    if x >= 128 {
      VarintRoundTrip(x / 128, i + 1, rest);
      assert b[1..] == PutUvarint(x / 128) + rest;
    }
  }

  /** A varint that lost its tail has no terminating byte, so it cannot be read. */
  lemma {:induction false} TruncatedVarint(x: nat, i: nat, k: nat)
    requires k < |PutUvarint(x)|
    ensures UvarintFrom(PutUvarint(x)[..k], i) == Unreadable
    decreases x
  {
    if k > 0 && i < MAX_VARINT_LEN_64 {
      assert x >= 128;
      TruncatedVarint(x / 128, i + 1, k - 1);
      assert PutUvarint(x)[..k][1..] == PutUvarint(x / 128)[..k - 1];
    }
  }

  // ---------- one frame ----------

  function KindCode(kind: Kind): byte {
    match kind case Memory => 1 case Session => 2 case Chunk => 3
  }

  function KindFromCode(code: byte): Option<Kind> {
    if code == 1 then Some(Memory) else if code == 2 then Some(Session)
    else if code == 3 then Some(Chunk) else None
  }

  function Body(f: Frame): (b: Bytes)
    ensures |b| == HEADER_SIZE + ID_SIZE + |f.sealed|
  {
    MAGIC + [FRAME_VERSION, KindCode(f.kind), ID_SIZE as byte] + f.id.bytes + f.sealed
  }

  /** Go's slice lengths are 63-bit; a frame's length must fit the 64-bit varint it is written as. */
  predicate Fits(f: Frame) { HEADER_SIZE + ID_SIZE + |f.sealed| < UINT64 }

  function FrameRecord(f: Frame): (b: Bytes)
    ensures |b| > 0
  {
    PutUvarint(|Body(f)|) + Body(f)
  }

  function Unframe(b: Bytes): (u: Unframed)
    ensures u.Item? ==> |u.rest| < |b|
  {
    match Uvarint(b)
    case Unreadable => Damaged
    case Read(length, n) =>
      var tail := b[n..];
      if |tail| < length then Damaged
      else ParseBody(tail[..length], tail[length..])
  }

  function ParseBody(body: Bytes, rest: Bytes): (u: Unframed)
    ensures u.Item? ==> u.rest == rest
  {
    if |body| < HEADER_SIZE then Damaged
    else if body[..2] != MAGIC then Damaged
    else if body[2] != FRAME_VERSION then Damaged
    else match KindFromCode(body[3])
      case None => Damaged
      case Some(kind) =>
        var idLen := body[4] as nat;
        if |body| < HEADER_SIZE + idLen then Damaged
        else if idLen != ID_SIZE then Damaged
        else Item(Frame(kind, RawId(body[HEADER_SIZE..HEADER_SIZE + idLen]), body[HEADER_SIZE + idLen..]), rest)
  }

  /** Unframing the first frame of a blob returns that record and everything after it. */
  lemma UnframeFrame(f: Frame, rest: Bytes)
    requires Fits(f)
    ensures Unframe(FrameRecord(f) + rest) == Item(f, rest)
  {
    var body := Body(f);
    var b := FrameRecord(f) + rest;
    assert b == PutUvarint(|body|) + (body + rest);
    RemainingIsUint64();
    VarintRoundTrip(|body|, 0, body + rest);
    var tail := b[|PutUvarint(|body|)|..];
    assert tail == body + rest;
    assert tail[..|body|] == body && tail[|body|..] == rest;
    assert body[..2] == MAGIC;
    assert body[HEADER_SIZE..HEADER_SIZE + ID_SIZE] == f.id.bytes;
    assert body[HEADER_SIZE + ID_SIZE..] == f.sealed;
  }

  lemma RemainingIsUint64()
    ensures Remaining(0) == UINT64
  {
    assert Remaining(9) == 2;
    assert Remaining(7) == 128 * Remaining(8);
    assert Remaining(5) == 128 * Remaining(6);
    assert Remaining(3) == 128 * Remaining(4);
    assert Remaining(1) == 128 * Remaining(2);
  }

  /** No proper prefix of a frame unframes: the cut is in the length or it leaves too few bytes. */
  lemma TruncatedFrame(f: Frame, k: nat)
    requires Fits(f) && k < |FrameRecord(f)|
    ensures Unframe(FrameRecord(f)[..k]) == Damaged
  {
    var body := Body(f);
    var size := PutUvarint(|body|);
    var cut := FrameRecord(f)[..k];
    if k < |size| {
      assert cut == size[..k];
      TruncatedVarint(|body|, 0, k);
    } else {
      assert cut == size + body[..k - |size|];
      RemainingIsUint64();
      VarintRoundTrip(|body|, 0, body[..k - |size|]);
    }
  }

  function FrameOverhead(sealedLen: nat): nat {
    var body := HEADER_SIZE + ID_SIZE + sealedLen;
    |PutUvarint(body)| + body - sealedLen
  }

  /** The overhead the packer budgets for is the overhead a frame really costs. */
  lemma OverheadIsExact(f: Frame)
    ensures FrameOverhead(|f.sealed|) == |FrameRecord(f)| - |f.sealed|
  {
  }

  // ---------- a packed blob ----------

  /** Every record a packed blob holds, with the reason the walk stopped. */
  method WalkBlob(blob: Bytes) returns (out: seq<Frame>, err: bool)
    ensures Walk(out, !err) == WalkWith(Unframe, blob)
  {
    out, err := [], false;
    var left := blob;
    while left != []
      invariant Walk(out + WalkWith(Unframe, left).items, WalkWith(Unframe, left).intact) == WalkWith(Unframe, blob)
      decreases |left|
    {
      match Unframe(left) {
        case Damaged =>
          assert out + [] == out;
          err := true;
          return;
        case Item(frame, rest) =>
          assert out + ([frame] + WalkWith(Unframe, rest).items) == (out + [frame]) + WalkWith(Unframe, rest).items;
          out := out + [frame];
          left := rest;
      }
    }
    assert out + [] == out;
  }

  /** `pieces` are these records, framed one by one. */
  ghost predicate Framed(fs: seq<Frame>, pieces: seq<Bytes>) {
    && |pieces| == |fs|
    && forall i :: 0 <= i < |fs| ==> Fits(fs[i]) && pieces[i] == FrameRecord(fs[i])
  }

  lemma FramedParses(fs: seq<Frame>, pieces: seq<Bytes>)
    requires Framed(fs, pieces)
    ensures ParsesTo(Unframe, pieces, fs)
  {
    forall i, rest | 0 <= i < |pieces|
      ensures Unframe(pieces[i] + rest) == Item(fs[i], rest)
    {
      UnframeFrame(fs[i], rest);
    }
    forall i, k | 0 <= i < |pieces| && 0 <= k < |pieces[i]|
      ensures Unframe(pieces[i][..k]) == Damaged
    {
      TruncatedFrame(fs[i], k);
    }
  }

  /**
   * A packed blob cut at any byte yields exactly the records lying wholly before the cut, and the
   * walk reports damage unless the cut fell between two records.
   */
  lemma TruncatedBlob(fs: seq<Frame>, pieces: seq<Bytes>, cut: nat)
    requires Framed(fs, pieces) && cut <= |Concat(pieces)|
    ensures var n := WholeBefore(pieces, cut);
      WalkWith(Unframe, Concat(pieces)[..cut]) == Walk(fs[..n], cut == Boundary(pieces, n))
  {
    FramedParses(fs, pieces);
    TruncatedWalk(Unframe, pieces, fs, cut);
  }

  /** Walking an undamaged blob returns exactly the records packed into it. */
  lemma PackRoundTrip(fs: seq<Frame>, pieces: seq<Bytes>)
    requires Framed(fs, pieces)
    ensures WalkWith(Unframe, Concat(pieces)) == Walk(fs, true)
  {
    FramedParses(fs, pieces);
    WholeWalk(Unframe, pieces, fs);
  }
}
