/** The catalog's durable form: one sealed entry per line, shared by the log and the snapshot. */
module ManifestLines {
  import opened Bytes
  import opened Records
  import opened KeyedLog
  import Base64

  datatype Entry = Entry(id: Id, kind: Kind, typ: string, version: int, cid: string, objectRef: string,
                         slabId: string, bytes: nat, tags: seq<string>, writtenAt: int, deleted: bool)

  function Key(e: Entry): Id { e.id }

  const MAX_LINE_BYTES: nat := 1048576

  /** The entry codec and the cipher over it. */
  datatype Codec = Codec(json: Entry -> Bytes, parse: Bytes -> Option<Entry>, sealer: Sealer)

  ghost predicate Good(c: Codec) {
    && (forall e :: c.parse(c.json(e)) == Some(e))
    && Inverts(c.sealer)
    && LengthPreserving(c.sealer)
  }

  function EncodeLine(c: Codec, nonce: nat, e: Entry): Bytes {
    Base64.Encode(c.sealer.seal(nonce, c.json(e))) + [Base64.NEWLINE]
  }

  function LineSize(c: Codec, e: Entry): nat { |EncodeLine(c, 0, e)| }

  function Size(c: Codec): Entry -> nat { e => LineSize(c, e) }

  /** `line` is what sealing `e` under some nonce wrote. */
  ghost predicate IsLine(c: Codec, line: Bytes, e: Entry) {
    exists nonce: nat :: line == EncodeLine(c, nonce, e)
  }

  /** A line the scanner's buffer can hold. */
  predicate Fits(c: Codec, e: Entry) { LineSize(c, e) <= MAX_LINE_BYTES }

  /** `file` holds these entries and nothing else. */
  ghost predicate Holds(c: Codec, file: Bytes, lines: seq<Bytes>, es: seq<Entry>) {
    && file == Concat(lines)
    && |lines| == |es|
    && forall i :: 0 <= i < |es| ==> IsLine(c, lines[i], es[i])
  }

  lemma LineShape(c: Codec, line: Bytes, e: Entry)
    requires Good(c) && IsLine(c, line, e)
    ensures |line| == LineSize(c, e) > 1
    ensures line[|line| - 1] == Base64.NEWLINE
    ensures Base64.NEWLINE !in line[..|line| - 1]
  {
    var nonce: nat :| line == EncodeLine(c, nonce, e);
    var sealed := c.sealer.seal(nonce, c.json(e));
    Base64.Shape(sealed);
    Base64.Shape(c.sealer.seal(0, c.json(e)));
    assert |sealed| > 0;
    assert line[..|line| - 1] == Base64.Encode(sealed);
  }

  lemma HoldsAppend(c: Codec, file: Bytes, lines: seq<Bytes>, es: seq<Entry>, line: Bytes, e: Entry)
    requires Holds(c, file, lines, es) && IsLine(c, line, e)
    ensures Holds(c, file + line, lines + [line], es + [e])
  {
    ConcatAppend(lines, line);
  }

  /** One more line behind a file that already has these behind it. */
  lemma HoldsMore(c: Codec, base: Bytes, file: Bytes, lines: seq<Bytes>, es: seq<Entry>, i: nat, line: Bytes)
    requires i < |es| && Holds(c, Concat(lines), lines, es[..i]) && file == base + Concat(lines) && IsLine(c, line, es[i])
    ensures Holds(c, Concat(lines + [line]), lines + [line], es[..i + 1])
    ensures file + line == base + Concat(lines + [line])
  {
    HoldsAppend(c, Concat(lines), lines, es[..i], line, es[i]);
    assert es[..i + 1] == es[..i] + [es[i]];
    ConcatAppend(lines, line);
  }

  lemma SealedIsLine(c: Codec, nonce: nat, e: Entry)
    ensures IsLine(c, EncodeLine(c, nonce, e), e)
  {
  }

  /** Seals one entry under a fresh nonce into the line that represents it. */
  method SealLine(c: Codec, e: Entry) returns (line: Bytes)
    requires Good(c)
    ensures IsLine(c, line, e) && |line| == LineSize(c, e)
  {
    var nonce: nat := *;
    line := EncodeLine(c, nonce, e);
    SealedIsLine(c, nonce, e);
    LineShape(c, line, e);
  }

  // ---------- reading ----------

  function LineLength(b: Bytes): (n: nat)
    ensures n <= |b|
    ensures n < |b| ==> b[n] == Base64.NEWLINE
    ensures Base64.NEWLINE !in b[..n]
  {
    if b == [] || b[0] == Base64.NEWLINE then 0
    else
      var n := LineLength(b[1..]);
      assert b[..n + 1] == [b[0]] + b[1..][..n];
      n + 1
  }

  function DecodeText(c: Codec, text: Bytes): Option<Entry> {
    var sealed :- Base64.Decode(text);
    var plaintext :- c.sealer.open(sealed);
    c.parse(plaintext)
  }

  function AfterLine(b: Bytes): (rest: Bytes)
    ensures b != [] ==> |rest| < |b|
  {
    var n := LineLength(b);
    if n < |b| then b[n + 1..] else []
  }

  /** Every entry of a file in order; blank lines are skipped, and one bad line fails the whole read. */
  function ReadFile(c: Codec, b: Bytes): Option<seq<Entry>>
    decreases |b|
  {
    if b == [] then Some([])
    else
      var n := LineLength(b);
      if n >= MAX_LINE_BYTES then None
      else if n == 0 then ReadFile(c, AfterLine(b))
      else
        var e :- DecodeText(c, b[..n]);
        var es :- ReadFile(c, AfterLine(b));
        Some([e] + es)
  }

  /** The listing a map of entries and a first-seen order stand for. */
  ghost predicate Indexed(entries: map<Id, Entry>, order: seq<Id>) {
    && (forall i, j :: 0 <= i < j < |order| ==> order[i] != order[j])
    && (forall id :: id in entries <==> id in order)
    && (forall id <- entries :: entries[id].id == id)
  }

  ghost function Listing(entries: map<Id, Entry>, order: seq<Id>): (out: seq<Entry>)
    requires Indexed(entries, order)
    ensures |out| == |order|
  {
    seq(|order|, i requires 0 <= i < |order| => entries[order[i]])
  }

  lemma ListingDistinct(entries: map<Id, Entry>, order: seq<Id>)
    requires Indexed(entries, order)
    ensures Distinct(Key, Listing(entries, order))
  {
  }

  lemma ListingFind(entries: map<Id, Entry>, order: seq<Id>, id: Id)
    requires Indexed(entries, order)
    ensures Find(Key, Listing(entries, order), id) == if id in entries then Some(entries[id]) else None
  {
    if id in entries {
      var i :| 0 <= i < |order| && order[i] == id;
      ListingDistinct(entries, order);
      FindAt(Key, Listing(entries, order), i);
    }
  }

  /** Putting an entry in the map, and its id in the order when it is new, is an upsert of the listing. */
  lemma PutListing(entries: map<Id, Entry>, order: seq<Id>, e: Entry)
    requires Indexed(entries, order)
    ensures var order' := if e.id in entries then order else order + [e.id];
      Indexed(entries[e.id := e], order')
      && Listing(entries[e.id := e], order') == Upsert(Key, Listing(entries, order), e)
  {
    var before := Listing(entries, order);
    var at := IndexOf(Key, before, e.id);
    ListingFind(entries, order, e.id);
    if e.id in entries {
      ListingAt(entries, order, at, e);
    } else {
      ListingGrows(entries, order, e);
    }
  }

  lemma ListingAt(entries: map<Id, Entry>, order: seq<Id>, at: nat, e: Entry)
    requires Indexed(entries, order) && at < |order| && order[at] == e.id
    ensures Indexed(entries[e.id := e], order)
    ensures Listing(entries[e.id := e], order) == Listing(entries, order)[at := e]
  {
  }

  lemma ListingGrows(entries: map<Id, Entry>, order: seq<Id>, e: Entry)
    requires Indexed(entries, order) && e.id !in entries
    ensures Indexed(entries[e.id := e], order + [e.id])
    ensures Listing(entries[e.id := e], order + [e.id]) == Listing(entries, order) + [e]
  {
  }

  /** Folds a file, line by line, into the map and the order an earlier file left. */
  method ReadEntries(c: Codec, b: Bytes, entries0: map<Id, Entry>, order0: seq<Id>)
      returns (ok: bool, entries: map<Id, Entry>, order: seq<Id>)
    requires Indexed(entries0, order0)
    ensures ok <==> ReadFile(c, b).Some?
    ensures Indexed(entries, order)
    ensures ok ==> Listing(entries, order) == Replay(Key, Listing(entries0, order0), ReadFile(c, b).value)
  {
    entries, order := entries0, order0;
    var left := b;
    while left != []
      invariant Indexed(entries, order)
      invariant ReadFile(c, b).Some? <==> ReadFile(c, left).Some?
      invariant ReadFile(c, b).Some? ==>
        Replay(Key, Listing(entries0, order0), ReadFile(c, b).value)
        == Replay(Key, Listing(entries, order), ReadFile(c, left).value)
      decreases |left|
    {
      var n := LineLength(left);
      if n >= MAX_LINE_BYTES {
        return false, entries, order;
      }
      if n > 0 {
        var decoded := DecodeText(c, left[..n]);
        if decoded.None? {
          return false, entries, order;
        }
        var e := decoded.value;
        PutListing(entries, order, e);
        if ReadFile(c, AfterLine(left)).Some? {
          var es := ReadFile(c, AfterLine(left)).value;
          assert ([e] + es)[1..] == es;
        }
        if e.id !in entries {
          order := order + [e.id];
        }
        entries := entries[e.id := e];
      }
      left := AfterLine(left);
    }
    ok := true;
  }

  // ---------- what a file of lines reads back as, whole or cut ----------

  lemma LineReads(c: Codec, line: Bytes, e: Entry)
    requires Good(c) && IsLine(c, line, e)
    ensures |line| > 1 && DecodeText(c, line[..|line| - 1]) == Some(e)
  {
    LineShape(c, line, e);
    var nonce: nat :| line == EncodeLine(c, nonce, e);
    var sealed := c.sealer.seal(nonce, c.json(e));
    assert line[..|line| - 1] == Base64.Encode(sealed);
    Base64.RoundTrip(sealed);
  }

  /** A line that lost more than its newline does not decode. */
  lemma CutLineFails(c: Codec, line: Bytes, e: Entry, k: nat)
    requires Good(c) && Authentic(c.sealer) && IsLine(c, line, e)
    requires 0 < k < |line| - 1
    ensures DecodeText(c, line[..k]) == None
  {
    var nonce: nat :| line == EncodeLine(c, nonce, e);
    var sealed := c.sealer.seal(nonce, c.json(e));
    var text := Base64.Encode(sealed);
    assert line[..k] == text[..k];
    Base64.Truncated(sealed, k);
  }

  lemma LengthWithNewline(text: Bytes, rest: Bytes)
    requires Base64.NEWLINE !in text
    ensures LineLength(text + [Base64.NEWLINE] + rest) == |text|
    ensures AfterLine(text + [Base64.NEWLINE] + rest) == rest
  {
    var b := text + [Base64.NEWLINE] + rest;
    var n := LineLength(b);
    assert forall i :: 0 <= i < |text| ==> b[i] == text[i];
    assert b[|text|] == Base64.NEWLINE;
    NewlineStops(b, |text|);
  }

  lemma {:induction false} NewlineStops(b: Bytes, n: nat)
    requires n < |b| && b[n] == Base64.NEWLINE
    ensures LineLength(b) <= n
  {
    if n > 0 && b[0] != Base64.NEWLINE { NewlineStops(b[1..], n - 1); }
  }

  lemma LengthWithout(text: Bytes)
    requires Base64.NEWLINE !in text
    ensures LineLength(text) == |text| && AfterLine(text) == []
  {
  }

  lemma ReadFirst(c: Codec, line: Bytes, e: Entry, rest: Bytes)
    requires Good(c) && IsLine(c, line, e)
    ensures ReadFile(c, line + rest) ==
      if !Fits(c, e) || ReadFile(c, rest).None? then None else Some([e] + ReadFile(c, rest).value)
  {
    LineShape(c, line, e);
    LineReads(c, line, e);
    var text := line[..|line| - 1];
    assert line + rest == text + [Base64.NEWLINE] + rest;
    LengthWithNewline(text, rest);
    assert (line + rest)[..|text|] == text;
  }

  lemma {:induction false} ReadAll(read: Reader, fits: Entry -> bool, lines: seq<Bytes>, es: seq<Entry>)
    requires |lines| == |es| && read([]) == Some([])
    requires forall i, rest {:trigger read(lines[i] + rest)} :: 0 <= i < |lines| ==>
      read(lines[i] + rest) == if fits(es[i]) then Before(es[i], read(rest)) else None
    ensures read(Concat(lines)) == if forall e <- es :: fits(e) then Some(es) else None
    decreases lines
  {
    if lines != [] {
      forall i, rest | 0 <= i < |lines[1..]|
        ensures read(lines[1..][i] + rest) == if fits(es[1..][i]) then Before(es[1..][i], read(rest)) else None
      {
        assert lines[1..][i] == lines[i + 1];
      }
      ReadAll(read, fits, lines[1..], es[1..]);
      assert [es[0]] + es[1..] == es;
      assert forall e :: e in es <==> e == es[0] || e in es[1..];
    }
  }

  /** A file of lines reads back as its entries exactly when the scanner can hold every line. */
  lemma WholeFileReads(c: Codec, file: Bytes, lines: seq<Bytes>, es: seq<Entry>)
    requires Good(c) && Holds(c, file, lines, es)
    ensures ReadFile(c, file) == if forall e <- es :: Fits(c, e) then Some(es) else None
  {
    forall i, rest | 0 <= i < |lines|
      ensures ReadFile(c, lines[i] + rest) == if Fits(c, es[i]) then Before(es[i], ReadFile(c, rest)) else None
    {
      ReadFirst(c, lines[i], es[i], rest);
    }
    ReadAll(b => ReadFile(c, b), e => Fits(c, e), lines, es);
  }

  lemma CutInLine(c: Codec, line: Bytes, e: Entry, k: nat)
    requires Good(c) && Authentic(c.sealer) && IsLine(c, line, e) && Fits(c, e)
    requires k < |line|
    ensures ReadFile(c, line[..k]) ==
      if k == 0 then Some([]) else if k == |line| - 1 then Some([e]) else None
  {
    if k > 0 {
      LineShape(c, line, e);
      var text := line[..k];
      assert forall x <- text :: x in line[..|line| - 1];
      LengthWithout(text);
      assert text[..k] == text;
      if k == |line| - 1 {
        LineReads(c, line, e);
        assert [e] + [] == [e];
      } else {
        CutLineFails(c, line, e, k);
      }
    }
  }

  function AllBefore(es: seq<Entry>, rest: Option<seq<Entry>>): Option<seq<Entry>> {
    var more :- rest;
    Some(es + more)
  }

  /** `read` takes each of these lines off the front of whatever follows it. */
  ghost predicate TakesEach(read: Reader, lines: seq<Bytes>, es: seq<Entry>) {
    |lines| == |es| && forall i, more {:trigger read(lines[i] + more)} :: 0 <= i < |lines| ==>
      read(lines[i] + more) == Before(es[i], read(more))
  }

  lemma TakesRest(read: Reader, lines: seq<Bytes>, es: seq<Entry>)
    requires TakesEach(read, lines, es) && lines != []
    ensures TakesEach(read, lines[1..], es[1..])
  {
    forall i, more | 0 <= i < |lines[1..]|
      ensures read(lines[1..][i] + more) == Before(es[1..][i], read(more))
    {
      assert lines[1..][i] == lines[i + 1];
    }
  }

  lemma TakesFirst(read: Reader, lines: seq<Bytes>, es: seq<Entry>, tail: Bytes, found: Option<seq<Entry>>)
    requires TakesEach(read, lines, es) && lines != [] && read(tail) == AllBefore(es[1..], found)
    ensures read(lines[0] + tail) == AllBefore(es, found)
  {
    assert read(lines[0] + tail) == Before(es[0], read(tail));
    if found.Some? {
      assert [es[0]] + (es[1..] + found.value) == es + found.value;
    }
  }

  lemma {:induction false} ReadPast(read: Reader, lines: seq<Bytes>, es: seq<Entry>, rest: Bytes)
    requires TakesEach(read, lines, es)
    ensures read(Concat(lines) + rest) == AllBefore(es, read(rest))
    decreases lines
  {
    if lines == [] {
      assert Concat(lines) + rest == rest;
      assert read(rest).Some? ==> es + read(rest).value == read(rest).value;
    } else {
      TakesRest(read, lines, es);
      ReadPast(read, lines[1..], es[1..], rest);
      TakesFirst(read, lines, es, Concat(lines[1..]) + rest, read(rest));
      assert Concat(lines) + rest == lines[0] + (Concat(lines[1..]) + rest);
    }
  }

  /** Whatever follows a file of whole lines is read after them. */
  lemma ReadThrough(c: Codec, lines: seq<Bytes>, es: seq<Entry>, rest: Bytes)
    requires Good(c) && Holds(c, Concat(lines), lines, es) && forall e <- es :: Fits(c, e)
    ensures ReadFile(c, Concat(lines) + rest) == AllBefore(es, ReadFile(c, rest))
  {
    forall i, more | 0 <= i < |lines|
      ensures ReadFile(c, lines[i] + more) == Before(es[i], ReadFile(c, more))
    {
      ReadFirst(c, lines[i], es[i], more);
    }
    ReadPast(b => ReadFile(c, b), lines, es, rest);
  }

  /** What a file reads as when the process died with `k` bytes of one more line written. */
  lemma AppendCut(c: Codec, lines: seq<Bytes>, es: seq<Entry>, line: Bytes, e: Entry, k: nat)
    requires Good(c) && Authentic(c.sealer) && Holds(c, Concat(lines), lines, es) && forall x <- es :: Fits(c, x)
    requires IsLine(c, line, e) && Fits(c, e) && k <= |line|
    ensures ReadFile(c, Concat(lines) + line[..k])
      == if k == 0 then Some(es) else if k >= |line| - 1 then Some(es + [e]) else None
  {
    ReadThrough(c, lines, es, line[..k]);
    LineShape(c, line, e);
    if k < |line| {
      CutInLine(c, line, e, k);
    } else {
      ReadFirst(c, line, e, []);
      assert line[..k] == line + [] && [e] + [] == [e];
    }
    assert es + [] == es;
  }

  // ---------- what follows a line that was cut ----------

  /** The text the scanner sees when a whole line is written right behind the first `k` bytes of another. */
  ghost function JoinedText(c: Codec, nonce: nat, e: Entry, k: nat, after: nat, next: Entry): Bytes
    requires k <= |EncodeLine(c, nonce, e)|
  {
    var line := EncodeLine(c, after, next);
    EncodeLine(c, nonce, e)[..k] + line[..|line| - 1]
  }

  /** No such text opens: what is sealed opens as a whole or not at all. */
  ghost predicate NoJoins(c: Codec) {
    forall nonce: nat, e, k: nat, after: nat, next {:trigger JoinedText(c, nonce, e, k, after, next)} ::
      0 < k < |EncodeLine(c, nonce, e)| ==> DecodeText(c, JoinedText(c, nonce, e, k, after, next)) == None
  }

  lemma JoinedFails(c: Codec, line: Bytes, e: Entry, k: nat, next: Bytes, x: Entry, rest: Bytes)
    requires Good(c) && NoJoins(c) && IsLine(c, line, e) && IsLine(c, next, x) && 0 < k < |line|
    ensures ReadFile(c, line[..k] + (next + rest)) == None
  {
    LineShape(c, line, e);
    LineShape(c, next, x);
    var text := next[..|next| - 1];
    assert next == text + [Base64.NEWLINE];
    assert line[..k] == line[..|line| - 1][..k];
    JoinedOpensNot(c, line, e, k, next, x);
    NoNewline(line[..k], text);
    BadTextFails(c, line[..k] + text, rest);
    assert line[..k] + (next + rest) == (line[..k] + text) + [Base64.NEWLINE] + rest;
  }

  lemma JoinedOpensNot(c: Codec, line: Bytes, e: Entry, k: nat, next: Bytes, x: Entry)
    requires NoJoins(c) && IsLine(c, line, e) && IsLine(c, next, x) && 0 < k < |line| && next != []
    ensures DecodeText(c, line[..k] + next[..|next| - 1]) == None
  {
    var nonce: nat :| line == EncodeLine(c, nonce, e);
    var after: nat :| next == EncodeLine(c, after, x);
    assert line[..k] + next[..|next| - 1] == JoinedText(c, nonce, e, k, after, x);
  }

  lemma NoNewline(a: Bytes, b: Bytes)
    requires Base64.NEWLINE !in a && Base64.NEWLINE !in b
    ensures Base64.NEWLINE !in a + b
  {
  }

  /** One line that decodes to nothing fails the whole read. */
  lemma BadTextFails(c: Codec, text: Bytes, rest: Bytes)
    requires text != [] && Base64.NEWLINE !in text && DecodeText(c, text) == None
    ensures ReadFile(c, text + [Base64.NEWLINE] + rest) == None
  {
    LengthWithNewline(text, rest);
    assert (text + [Base64.NEWLINE] + rest)[..|text|] == text;
  }

  /** What is read from `k` bytes of a line with whole lines behind it: all of them, or nothing of the file at all. */
  function ReadAfterCut(k: nat, line: Bytes, e: Entry, later: seq<Entry>): Option<seq<Entry>> {
    if k == 0 then Some(later)
    else if k == |line| || (k == |line| - 1 && later == []) then Some([e] + later)
    else None
  }

  lemma CutTail(c: Codec, line: Bytes, e: Entry, k: nat, more: seq<Bytes>, later: seq<Entry>)
    requires Good(c) && Authentic(c.sealer) && NoJoins(c)
    requires IsLine(c, line, e) && Fits(c, e) && k <= |line| && Holds(c, Concat(more), more, later)
    requires forall x <- later :: Fits(c, x)
    ensures ReadFile(c, line[..k] + Concat(more)) == ReadAfterCut(k, line, e, later)
  {
    LineShape(c, line, e);
    WholeFileReads(c, Concat(more), more, later);
    if k == 0 {
      assert line[..k] + Concat(more) == Concat(more);
    } else if k == |line| {
      assert line[..k] == line;
      ReadFirst(c, line, e, Concat(more));
    } else if later == [] {
      assert line[..k] + Concat(more) == line[..k] && [e] + later == [e];
      CutInLine(c, line, e, k);
    } else {
      JoinedFails(c, line, e, k, more[0], later[0], Concat(more[1..]));
    }
  }

  /**
   * Whole lines written behind a cut one: the file reads, with all of them, exactly when the cut left
   * nothing or everything; with none written it also reads when only the newline was lost.
   */
  lemma CutThenMore(c: Codec, lines: seq<Bytes>, es: seq<Entry>, line: Bytes, e: Entry, k: nat,
                    more: seq<Bytes>, later: seq<Entry>)
    requires Good(c) && Authentic(c.sealer) && NoJoins(c) && Holds(c, Concat(lines), lines, es)
    requires IsLine(c, line, e) && Fits(c, e) && k <= |line| && Holds(c, Concat(more), more, later)
    requires (forall x <- es :: Fits(c, x)) && forall x <- later :: Fits(c, x)
    ensures ReadFile(c, Concat(lines) + line[..k] + Concat(more)) == AllBefore(es, ReadAfterCut(k, line, e, later))
  {
    CutTail(c, line, e, k, more, later);
    ReadThrough(c, lines, es, line[..k] + Concat(more));
    assert Concat(lines) + line[..k] + Concat(more) == Concat(lines) + (line[..k] + Concat(more));
  }

  /** How many entries a file cut at byte `cut` yields, or none at all when it cannot be read. */
  function Recovered(lines: seq<Bytes>, cut: nat): (n: Option<nat>)
    ensures n.Some? ==> n.value <= |lines|
  {
    if lines == [] || cut == 0 then Some(0)
    else if cut < |lines[0]| then
      if cut == |lines[0]| - 1 then Some(1) else None
    else
      var n :- Recovered(lines[1..], cut - |lines[0]|);
      Some(n + 1)
  }

  type Reader = Bytes -> Option<seq<Entry>>

  /** `read` takes such a file line by line, and a cut line yields its entry only with all its text. */
  ghost predicate LineByLine(read: Reader, lines: seq<Bytes>, es: seq<Entry>) {
    && |lines| == |es|
    && read([]) == Some([])
    && (forall i :: 0 <= i < |lines| ==> |lines[i]| > 1)
    && (forall i, rest {:trigger read(lines[i] + rest)} :: 0 <= i < |lines| ==> read(lines[i] + rest) == Before(es[i], read(rest)))
    && (forall i, k :: 0 <= i < |lines| && 0 < k < |lines[i]| ==>
          read(lines[i][..k]) == if k == |lines[i]| - 1 then Some([es[i]]) else None)
  }

  function Before(e: Entry, rest: Option<seq<Entry>>): Option<seq<Entry>> {
    var es :- rest;
    Some([e] + es)
  }

  lemma LineByLineTail(read: Reader, lines: seq<Bytes>, es: seq<Entry>)
    requires LineByLine(read, lines, es) && lines != []
    ensures LineByLine(read, lines[1..], es[1..])
  {
    forall i, rest | 0 <= i < |lines[1..]|
      ensures read(lines[1..][i] + rest) == Before(es[1..][i], read(rest))
    {
      assert lines[1..][i] == lines[i + 1];
    }
    forall i, k | 0 <= i < |lines[1..]| && 0 < k < |lines[1..][i]|
      ensures read(lines[1..][i][..k]) == if k == |lines[1..][i]| - 1 then Some([es[1..][i]]) else None
    {
      assert lines[1..][i] == lines[i + 1];
    }
  }

  lemma {:induction false} TornRead(read: Reader, lines: seq<Bytes>, es: seq<Entry>, cut: nat)
    requires LineByLine(read, lines, es) && cut <= |Concat(lines)|
    ensures read(Concat(lines)[..cut]) == match Recovered(lines, cut)
      case None => None
      case Some(n) => Some(es[..n])
    decreases lines
  {
    if lines == [] || cut == 0 {
      assert Concat(lines)[..cut] == [] && es[..0] == [];
      return;
    }
    var size, tail := |lines[0]|, Concat(lines[1..]);
    if cut < size {
      assert (lines[0] + tail)[..cut] == lines[0][..cut];
      assert es[..1] == [es[0]];
    } else {
      LineByLineTail(read, lines, es);
      TornRead(read, lines[1..], es[1..], cut - size);
      TakeAcross(lines[0], tail, cut);
      PrefixAcross(es, Recovered(lines[1..], cut - size), read(tail[..cut - size]));
    }
  }

  lemma FileIsLineByLine(c: Codec, lines: seq<Bytes>, es: seq<Entry>)
    requires Good(c) && Authentic(c.sealer) && Holds(c, Concat(lines), lines, es)
    requires forall e <- es :: Fits(c, e)
    ensures LineByLine(b => ReadFile(c, b), lines, es)
  {
    forall i | 0 <= i < |lines| ensures |lines[i]| > 1 {
      LineShape(c, lines[i], es[i]);
    }
    forall i, rest | 0 <= i < |lines|
      ensures ReadFile(c, lines[i] + rest) == Before(es[i], ReadFile(c, rest))
    {
      ReadFirst(c, lines[i], es[i], rest);
    }
    forall i, k | 0 <= i < |lines| && 0 < k < |lines[i]|
      ensures ReadFile(c, lines[i][..k]) == if k == |lines[i]| - 1 then Some([es[i]]) else None
    {
      CutInLine(c, lines[i], es[i], k);
    }
  }

  /** What replaying a file that lost its tail yields: some whole prefix of its entries, or an error. */
  lemma TornFile(c: Codec, file: Bytes, lines: seq<Bytes>, es: seq<Entry>, cut: nat)
    requires Good(c) && Authentic(c.sealer) && Holds(c, file, lines, es) && cut <= |file|
    requires forall e <- es :: Fits(c, e)
    ensures ReadFile(c, file[..cut]) == match Recovered(lines, cut)
      case None => None
      case Some(n) => Some(es[..n])
  {
    FileIsLineByLine(c, lines, es);
    TornRead(b => ReadFile(c, b), lines, es, cut);
  }

  lemma TakeAcross(line: Bytes, tail: Bytes, cut: nat)
    requires |line| <= cut <= |line| + |tail|
    ensures (line + tail)[..cut] == line + tail[..cut - |line|]
  {
  }

  lemma PrefixAcross(es: seq<Entry>, found: Option<nat>, read: Option<seq<Entry>>)
    requires es != [] && (found.Some? ==> found.value < |es|)
    requires read == match found case None => None case Some(n) => Some(es[1..][..n])
    ensures Before(es[0], read) == match found case None => None case Some(n) => Some(es[..n + 1])
  {
    if found.Some? { assert [es[0]] + es[1..][..found.value] == es[..found.value + 1]; }
  }

  /**
   * A file cut by an interrupted append reads back exactly when the cut fell between two lines or
   * took nothing but the newline of a line; every other cut makes the whole file unreadable.
   */
  lemma {:induction false} RecoveredExactly(lines: seq<Bytes>, cut: nat, n: nat)
    requires n <= |lines| && cut <= |Concat(lines)|
    requires forall line <- lines :: |line| > 1
    ensures Recovered(lines, cut) == Some(n)
      <==> cut == Boundary(lines, n) || (n > 0 && cut == Boundary(lines, n) - 1)
    decreases lines
  {
    if lines != [] && cut >= |lines[0]| {
      if n == 0 {
        assert Boundary(lines, 0) == 0;
      } else {
        RecoveredExactly(lines[1..], cut - |lines[0]|, n - 1);
        assert Boundary(lines, n) == |lines[0]| + Boundary(lines[1..], n - 1);
        if n == 1 {
          assert Recovered(lines, cut) == Some(1) <==> cut == |lines[0]|;
        }
      }
    } else if lines != [] && n > 0 {
      assert Boundary(lines, n) == |lines[0]| + Boundary(lines[1..], n - 1);
      BoundaryGrows(lines[1..], n - 1);
    }
  }

  lemma {:induction false} BoundaryGrows(lines: seq<Bytes>, n: nat)
    requires n <= |lines| && forall line <- lines :: |line| > 1
    ensures Boundary(lines, n) >= 2 * n
  {
    if n > 0 { BoundaryGrows(lines[1..], n - 1); }
  }

  lemma {:induction false} HoldsSize(c: Codec, file: Bytes, lines: seq<Bytes>, es: seq<Entry>)
    requires Good(c) && Holds(c, file, lines, es)
    ensures |file| == Sum(Size(c), es)
    decreases es
  {
    if es != [] {
      LineShape(c, lines[0], es[0]);
      HoldsSize(c, Concat(lines[1..]), lines[1..], es[1..]);
    }
  }
}
