/** The vector index's files: length-prefixed sealed entries, read up to the first damage. */
module IndexFile {
  import opened Bytes
  import opened Records

  /** A float32 by its bit pattern. */
  type Float32 = x: nat | x < 0x1_0000_0000

  /** One record's vector; an entry with no dimensions withdraws the record. */
  datatype Entry = Entry(id: Id, model: Bytes, dim: nat, vector: seq<Float32>)

  predicate Removed(e: Entry) { e.dim == 0 }

  function Removal(id: Id): Entry { Entry(id, [], 0, []) }

  function FloatBytes(v: seq<Float32>): Bytes {
    if v == [] then [] else ToLE(v[0], 4) + FloatBytes(v[1..])
  }

  function TailBytes(e: Entry): Bytes { ToLE(e.dim, 2) + (e.id.bytes + FloatBytes(e.vector)) }

  function EntryBody(e: Entry): Bytes { ToLE(|e.model|, 2) + (e.model + TailBytes(e)) }

  function ReadFloats(b: Bytes): (v: seq<Float32>)
    requires |b| % 4 == 0
    ensures 4 * |v| == |b|
  {
    if b == [] then [] else
      Pow256Values();
      [FromLE(b[..4])] + ReadFloats(b[4..])
  }

  function DecodeTail(model: Bytes, b: Bytes): Option<Entry>
    requires |b| >= 2 + ID_SIZE
  {
    var dim := FromLE(b[..2]);
    var floats := b[2 + ID_SIZE..];
    if |floats| != 4 * dim then None
    else Some(Entry(RawId(b[2..2 + ID_SIZE]), model, dim, ReadFloats(floats)))
  }

  function DecodeEntry(body: Bytes): Option<Entry> {
    if |body| < 2 then None
    else
      var nameLen := FromLE(body[..2]);
      if 2 + nameLen + 2 + ID_SIZE > |body| then None
      else DecodeTail(body[2..2 + nameLen], body[2 + nameLen..])
  }

  /** The widths the layout gives the two lengths. */
  predicate Fits(e: Entry) { |e.model| < 0x1_0000 && |e.vector| == e.dim < 0x1_0000 }

  lemma {:induction false} FloatsRoundTrip(v: seq<Float32>)
    ensures |FloatBytes(v)| == 4 * |v| && ReadFloats(FloatBytes(v)) == v
  {
    if v != [] {
      FloatsRoundTrip(v[1..]);
      LERoundTrip(v[0], 4);
      Pow256Values();
      var b := FloatBytes(v);
      assert b[..4] == ToLE(v[0], 4) && b[4..] == FloatBytes(v[1..]);
      assert [v[0]] + v[1..] == v;
    }
  }

  lemma TailRoundTrip(e: Entry)
    requires Fits(e)
    ensures |TailBytes(e)| >= 2 + ID_SIZE
    ensures DecodeTail(e.model, TailBytes(e)) == Some(e)
  {
    var b := TailBytes(e);
    FloatsRoundTrip(e.vector);
    LERoundTrip(e.dim, 2);
    Pow256Values();
    assert b[..2] == ToLE(e.dim, 2);
    assert b[2..2 + ID_SIZE] == e.id.bytes;
    assert b[2 + ID_SIZE..] == FloatBytes(e.vector);
  }

  lemma FittingRoundTrip(e: Entry)
    requires Fits(e)
    ensures DecodeEntry(EntryBody(e)) == Some(e)
  {
    LERoundTrip(|e.model|, 2);
    Pow256Values();
    TailRoundTrip(e);
    DecodeParts(ToLE(|e.model|, 2), e.model, TailBytes(e));
  }

  lemma DecodeParts(size: Bytes, model: Bytes, tail: Bytes)
    requires |size| == 2 && FromLE(size) == |model| && |tail| >= 2 + ID_SIZE
    ensures DecodeEntry(size + (model + tail)) == DecodeTail(model, tail)
  {
    var body := size + (model + tail);
    assert body[..2] == size && body[2..2 + |model|] == model && body[2 + |model|..] == tail;
  }

  lemma DecodedFits(body: Bytes)
    requires DecodeEntry(body).Some?
    ensures Fits(DecodeEntry(body).value)
  {
    Pow256Values();
  }

  /** An entry decodes to itself exactly when its two lengths fit the two bytes they are given. */
  lemma EntryRoundTrip(e: Entry)
    ensures DecodeEntry(EntryBody(e)) == Some(e) <==> Fits(e)
  {
    if Fits(e) {
      FittingRoundTrip(e);
    } else if DecodeEntry(EntryBody(e)).Some? {
      DecodedFits(EntryBody(e));
    }
  }

  function Line(s: Sealer, nonce: nat, e: Entry): Bytes {
    var sealed := s.seal(nonce, EntryBody(e));
    ToLE(|sealed|, 4) + sealed
  }

  /** The next entry of a file; anything that does not parse counts as damage. */
  function ReadOne(s: Sealer, raw: Bytes): Parsed<Entry> {
    if |raw| < 4 then Damaged
    else
      var size := FromLE(raw[..4]);
      if size == 0 || 4 + size > |raw| then Damaged
      else match s.open(raw[4..4 + size])
        case None => Damaged
        case Some(body) =>
          match DecodeEntry(body)
          case None => Damaged
          case Some(e) => Item(e, raw[4 + size..])
  }

  function Step(s: Sealer): Bytes -> Parsed<Entry> { raw => ReadOne(s, raw) }

  /** Every entry before the first damage. */
  function Contents(s: Sealer, raw: Bytes): seq<Entry> { WalkWith(Step(s), raw).items }

  method ReadEntries(s: Sealer, raw: Bytes) returns (out: seq<Entry>)
    ensures out == Contents(s, raw)
  {
    out := [];
    var left := raw;
    while |left| >= 4
      invariant Contents(s, raw) == out + Contents(s, left)
      decreases |left|
    {
      match ReadOne(s, left) {
        case Damaged =>
          break;
        case Item(e, rest) =>
          assert out + ([e] + Contents(s, rest)) == (out + [e]) + Contents(s, rest);
          out := out + [e];
          left := rest;
      }
    }
    assert Contents(s, left) == [];
    assert out + [] == out;
  }

  /** `line` is what sealing `e` under some nonce wrote, short enough for its four-byte length. */
  ghost predicate IsLine(s: Sealer, line: Bytes, e: Entry) {
    Fits(e) && exists nonce: nat :: line == Line(s, nonce, e) && |s.seal(nonce, EntryBody(e))| < 0x1_0000_0000
  }

  /** A line is the length of a sealed body and then the sealed body. */
  lemma LineParts(s: Sealer, line: Bytes, e: Entry) returns (nonce: nat, size: Bytes, sealed: Bytes)
    requires IsLine(s, line, e)
    ensures line == size + sealed && |size| == 4 && FromLE(size) == |sealed|
    ensures sealed == s.seal(nonce, EntryBody(e))
  {
    nonce :| line == Line(s, nonce, e) && |s.seal(nonce, EntryBody(e))| < 0x1_0000_0000;
    sealed := s.seal(nonce, EntryBody(e));
    size := ToLE(|sealed|, 4);
    LERoundTrip(|sealed|, 4);
    Pow256Values();
  }

  lemma SealedOpens(s: Sealer, nonce: nat, body: Bytes)
    requires Inverts(s) && LengthPreserving(s)
    ensures s.open(s.seal(nonce, body)) == Some(body) && |s.seal(nonce, body)| > 0
  {
    assert |s.seal(nonce, body)| == |s.seal(0, body)| > 0;
  }

  lemma LineParses(s: Sealer, line: Bytes, e: Entry, rest: Bytes)
    requires Inverts(s) && LengthPreserving(s) && IsLine(s, line, e)
    ensures |line| > 4
    ensures ReadOne(s, line + rest) == Item(e, rest)
  {
    var nonce, size, sealed := LineParts(s, line, e);
    SealedOpens(s, nonce, EntryBody(e));
    EntryRoundTrip(e);
    PartsRead(s, line, size, sealed, rest, EntryBody(e), e);
  }

  lemma PartsRead(s: Sealer, line: Bytes, size: Bytes, sealed: Bytes, rest: Bytes, body: Bytes, e: Entry)
    requires line == size + sealed && |size| == 4 && FromLE(size) == |sealed| > 0
    requires s.open(sealed) == Some(body) && DecodeEntry(body) == Some(e)
    ensures ReadOne(s, line + rest) == Item(e, rest)
  {
    var raw := line + rest;
    assert raw[..4] == size && raw[4..4 + |sealed|] == sealed && raw[4 + |sealed|..] == rest;
  }

  lemma CutLine(s: Sealer, line: Bytes, e: Entry, k: nat)
    requires IsLine(s, line, e) && k < |line|
    ensures ReadOne(s, line[..k]) == Damaged
  {
    var nonce, size, sealed := LineParts(s, line, e);
    if k >= 4 {
      CutPrefix(size, sealed, k);
      TooShort(s, line[..k], |sealed|);
    }
  }

  lemma CutPrefix(size: Bytes, sealed: Bytes, k: nat)
    requires |size| == 4 <= k <= 4 + |sealed|
    ensures (size + sealed)[..k][..4] == size
  {
  }

  lemma TooShort(s: Sealer, raw: Bytes, size: nat)
    requires |raw| >= 4 && FromLE(raw[..4]) == size && 4 + size > |raw|
    ensures ReadOne(s, raw) == Damaged
  {
  }

  /** `file` holds these entries, one sealed line each. */
  ghost predicate Holds(s: Sealer, file: Bytes, lines: seq<Bytes>, es: seq<Entry>) {
    && file == Concat(lines)
    && |lines| == |es|
    && forall i :: 0 <= i < |es| ==> IsLine(s, lines[i], es[i])
  }

  lemma HoldsParses(s: Sealer, lines: seq<Bytes>, es: seq<Entry>)
    requires Inverts(s) && LengthPreserving(s) && Holds(s, Concat(lines), lines, es)
    ensures ParsesTo(Step(s), lines, es)
  {
    forall i, rest | 0 <= i < |lines|
      ensures Step(s)(lines[i] + rest) == Item(es[i], rest)
    {
      LineParses(s, lines[i], es[i], rest);
    }
    forall i, k | 0 <= i < |lines| && 0 <= k < |lines[i]|
      ensures Step(s)(lines[i][..k]) == Damaged
    {
      CutLine(s, lines[i], es[i], k);
    }
    forall i | 0 <= i < |lines| ensures lines[i] != [] {
      LineParses(s, lines[i], es[i], []);
    }
  }

  /** A file whose tail was lost yields exactly the entries written wholly before the cut. */
  lemma TornFile(s: Sealer, file: Bytes, lines: seq<Bytes>, es: seq<Entry>, cut: nat)
    requires Inverts(s) && LengthPreserving(s) && Holds(s, file, lines, es) && cut <= |file|
    ensures Contents(s, file[..cut]) == es[..WholeBefore(lines, cut)]
  {
    HoldsParses(s, lines, es);
    TruncatedWalk(Step(s), lines, es, cut);
  }

  lemma HoldsAppend(s: Sealer, file: Bytes, lines: seq<Bytes>, es: seq<Entry>, line: Bytes, e: Entry)
    requires Holds(s, file, lines, es) && IsLine(s, line, e)
    ensures Holds(s, file + line, lines + [line], es + [e])
  {
    ConcatAppend(lines, line);
  }

  // ---------- writing on after an append was cut short ----------

  /** The whole file parses: nothing in it is damage. */
  ghost predicate Intact(s: Sealer, raw: Bytes) { WalkWith(Step(s), raw).intact }

  lemma ReadsNoFurther(s: Sealer)
    ensures Stable(Step(s))
  {
    forall x, y {:trigger Step(s)(x + y)} | Step(s)(x).Item?
      ensures Step(s)(x + y) == Item(Step(s)(x).item, Step(s)(x).rest + y)
    {
      var size := FromLE(x[..4]);
      assert (x + y)[..4] == x[..4] && (x + y)[4..4 + size] == x[4..4 + size];
      assert (x + y)[4 + size..] == x[4 + size..] + y;
    }
  }

  /** After an undamaged file, what is written next is read next. */
  lemma ReadOn(s: Sealer, file: Bytes, more: Bytes)
    requires Intact(s, file)
    ensures Contents(s, file + more) == Contents(s, file) + Contents(s, more)
    ensures Intact(s, file + more) <==> Intact(s, more)
  {
    ReadsNoFurther(s);
    WalkOn(Step(s), file, more);
  }

  /** Where an entry of `size` bytes would lie opens. */
  ghost predicate Opens(s: Sealer, raw: Bytes, size: nat) {
    4 + size <= |raw| && s.open(raw[4..4 + size]).Some?
  }

  /** No stretch of bytes that begins inside the torn entry and runs on into whole entries opens. */
  ghost predicate NoSplice(s: Sealer, torn: Bytes) {
    forall lines, es, size: nat {:trigger Holds(s, Concat(lines), lines, es), Opens(s, torn + Concat(lines), size)} ::
      Holds(s, Concat(lines), lines, es) && |torn| < 4 + size ==> !Opens(s, torn + Concat(lines), size)
  }

  /** No entry this vault writes, cut short, can be completed by what is written after it. */
  ghost predicate NoSplices(s: Sealer) {
    forall line, e, k: nat {:trigger IsLine(s, line, e), line[..k]} ::
      IsLine(s, line, e) && 0 < k < |line| ==> NoSplice(s, line[..k])
  }

  lemma TornIsDamage(s: Sealer, line: Bytes, e: Entry, k: nat, lines: seq<Bytes>, es: seq<Entry>)
    requires IsLine(s, line, e) && 0 < k < |line| && NoSplice(s, line[..k]) && Holds(s, Concat(lines), lines, es)
    ensures ReadOne(s, line[..k] + Concat(lines)) == Damaged
  {
    var _, prefix, sealed := LineParts(s, line, e);
    var torn, raw := line[..k], line[..k] + Concat(lines);
    if |raw| >= 4 {
      var size := FromLE(raw[..4]);
      if k >= 4 {
        assert raw[..4] == prefix;
      }
      assert !Opens(s, raw, size);
    }
  }

  /** Whatever whole entries are written after this file, none of them is read. */
  ghost predicate Hopeless(s: Sealer, file: Bytes) {
    forall lines, es {:trigger Holds(s, Concat(lines), lines, es)} :: Holds(s, Concat(lines), lines, es) ==>
      Contents(s, file + Concat(lines)) == Contents(s, file) && !Intact(s, file + Concat(lines))
  }

  lemma TornIsHopeless(s: Sealer, file: Bytes, line: Bytes, e: Entry, k: nat)
    requires Intact(s, file) && IsLine(s, line, e) && 0 < k < |line| && NoSplice(s, line[..k])
    ensures Contents(s, file + line[..k]) == Contents(s, file) && Hopeless(s, file + line[..k])
  {
    var torn := line[..k];
    forall lines, es | Holds(s, Concat(lines), lines, es)
      ensures Contents(s, (file + torn) + Concat(lines)) == Contents(s, file)
      ensures !Intact(s, (file + torn) + Concat(lines))
    {
      TornIsDamage(s, line, e, k, lines, es);
      ReadOn(s, file, torn + Concat(lines));
      assert (file + torn) + Concat(lines) == file + (torn + Concat(lines));
      assert Contents(s, file) + [] == Contents(s, file);
    }
    assert Holds(s, Concat([]), [], []);
    assert (file + torn) + Concat([]) == file + torn;
  }

  lemma HoldsBehind(s: Sealer, line: Bytes, e: Entry, lines: seq<Bytes>, es: seq<Entry>)
    requires IsLine(s, line, e) && Holds(s, Concat(lines), lines, es)
    ensures Holds(s, line + Concat(lines), [line] + lines, [e] + es)
  {
    assert ([line] + lines)[1..] == lines;
  }

  /** Once the walk is stuck, one more entry changes nothing. */
  lemma StillStuck(s: Sealer, file: Bytes, line: Bytes, e: Entry, lines: seq<Bytes>, es: seq<Entry>)
    requires Hopeless(s, file) && IsLine(s, line, e) && Holds(s, Concat(lines), lines, es)
    ensures Contents(s, (file + line) + Concat(lines)) == Contents(s, file)
    ensures !Intact(s, (file + line) + Concat(lines))
  {
    var more := Concat([line] + lines);
    HoldsBehind(s, line, e, lines, es);
    assert Holds(s, more, [line] + lines, [e] + es);
    assert (file + line) + Concat(lines) == file + more;
  }

  lemma StaysHopeless(s: Sealer, file: Bytes, line: Bytes, e: Entry)
    requires Hopeless(s, file) && IsLine(s, line, e)
    ensures Contents(s, file + line) == Contents(s, file) && Hopeless(s, file + line)
  {
    StillStuck(s, file, line, e, [], []);
    assert (file + line) + Concat([]) == file + line;
    forall lines, es | Holds(s, Concat(lines), lines, es)
      ensures Contents(s, (file + line) + Concat(lines)) == Contents(s, file)
      ensures !Intact(s, (file + line) + Concat(lines))
    {
      StillStuck(s, file, line, e, lines, es);
    }
  }

  /** What the whole part of the cut entry leaves to be read. */
  function Landed(line: Bytes, e: Entry, k: nat): seq<Entry> { if k == |line| then [e] else [] }

  /**
   * An append cut after `k` bytes, and whole entries written after it: the entries before the cut are
   * read, and all of the later ones exactly when there are none, or nothing or all of the entry was
   * written. Otherwise none of them ever is.
   */
  lemma AppendedAfterCut(s: Sealer, file: Bytes, line: Bytes, e: Entry, k: nat, lines: seq<Bytes>, later: seq<Entry>)
    requires Inverts(s) && LengthPreserving(s) && Intact(s, file) && IsLine(s, line, e) && k <= |line|
    requires Holds(s, Concat(lines), lines, later) && (0 < k < |line| ==> NoSplice(s, line[..k]))
    ensures var whole := k == 0 || k == |line|;
      && Contents(s, file + line[..k] + Concat(lines))
         == Contents(s, file) + Landed(line, e, k) + (if whole then later else [])
      && (Contents(s, file + line[..k] + Concat(lines)) == Contents(s, file) + Landed(line, e, k) + later
          <==> later == [] || whole)
  {
    var es := Contents(s, file);
    if 0 < k < |line| {
      TornIsHopeless(s, file, line, e, k);
      assert es + [] + [] == es;
      assert |es + [] + later| == |es| + |later|;
    } else {
      WholeLines(s, lines, later);
      CutWhole(s, file, line, e, k);
      ReadOn(s, file + line[..k], Concat(lines));
    }
  }

  lemma WholeLines(s: Sealer, lines: seq<Bytes>, es: seq<Entry>)
    requires Inverts(s) && LengthPreserving(s) && Holds(s, Concat(lines), lines, es)
    ensures Contents(s, Concat(lines)) == es && Intact(s, Concat(lines))
  {
    HoldsParses(s, lines, es);
    WholeWalk(Step(s), lines, es);
  }

  /** Nothing of an entry, or all of it, leaves the file undamaged. */
  lemma CutWhole(s: Sealer, file: Bytes, line: Bytes, e: Entry, k: nat)
    requires Inverts(s) && LengthPreserving(s) && Intact(s, file) && IsLine(s, line, e) && (k == 0 || k == |line|)
    ensures Contents(s, file + line[..k]) == Contents(s, file) + Landed(line, e, k) && Intact(s, file + line[..k])
  {
    if k == 0 {
      assert file + line[..k] == file;
      assert Contents(s, file) + [] == Contents(s, file);
    } else {
      assert line[..k] == line && Concat([line]) == line + Concat([]) == line;
      WholeLines(s, [line], [e]);
      ReadOn(s, file, line);
    }
  }

  lemma {:induction false} ContentsFit(s: Sealer, raw: Bytes)
    ensures forall e <- Contents(s, raw) :: Fits(e)
    decreases |raw|
  {
    if raw != [] && ReadOne(s, raw).Item? && |ReadOne(s, raw).rest| < |raw| {
      var size := FromLE(raw[..4]);
      DecodedFits(s.open(raw[4..4 + size]).value);
      ContentsFit(s, ReadOne(s, raw).rest);
    }
  }
}
