/** Base64 with padding, section 4 of RFC 4648. */
module Base64 {
  import opened Bytes
  import opened Records

  type Sextet = v: nat | v < 64

  const PAD: byte := 61      // '='
  const NEWLINE: byte := 10

  function Char(v: Sextet): (c: byte)
    ensures c != PAD && c != NEWLINE
  {
    if v < 26 then (65 + v) as byte
    else if v < 52 then (97 + v - 26) as byte
    else if v < 62 then (48 + v - 52) as byte
    else if v == 62 then 43 else 47
  }

  function Value(c: byte): Option<Sextet> {
    if 65 <= c <= 90 then Some(c as nat - 65)
    else if 97 <= c <= 122 then Some(c as nat - 97 + 26)
    else if 48 <= c <= 57 then Some(c as nat - 48 + 52)
    else if c == 43 then Some(62)
    else if c == 47 then Some(63)
    else None
  }

  lemma CharValue(v: Sextet)
    ensures Value(Char(v)) == Some(v)
  {
  }

  // The sextets of three bytes, and back.
  function S0(a: byte): Sextet { a as nat / 4 }
  function S1(a: byte, b: byte): Sextet { a as nat % 4 * 16 + b as nat / 16 }
  function S2(b: byte, c: byte): Sextet { b as nat % 16 * 4 + c as nat / 64 }
  function S3(c: byte): Sextet { c as nat % 64 }
  function B0(p: Sextet, q: Sextet): byte { (p * 4 + q / 16) as byte }
  function B1(q: Sextet, r: Sextet): byte { (q % 16 * 16 + r / 4) as byte }
  function B2(r: Sextet, s: Sextet): byte { (r % 4 * 64 + s) as byte }

  lemma SextetsRoundTrip(a: byte, b: byte, c: byte)
    ensures B0(S0(a), S1(a, b)) == a
    ensures B1(S1(a, b), S2(b, c)) == b
    ensures B2(S2(b, c), S3(c)) == c
  {
  }

  function Quad(p: Sextet, q: Sextet, r: Sextet, s: Sextet): Bytes { [Char(p), Char(q), Char(r), Char(s)] }
  function OneByte(p: Sextet, q: Sextet): Bytes { [Char(p), Char(q), PAD, PAD] }
  function TwoBytes(p: Sextet, q: Sextet, r: Sextet): Bytes { [Char(p), Char(q), Char(r), PAD] }

  function Encode(data: Bytes): (text: Bytes) {
    if data == [] then []
    else if |data| == 1 then OneByte(S0(data[0]), S1(data[0], 0))
    else if |data| == 2 then TwoBytes(S0(data[0]), S1(data[0], data[1]), S2(data[1], 0))
    else Quad(S0(data[0]), S1(data[0], data[1]), S2(data[1], data[2]), S3(data[2])) + Encode(data[3..])
  }

  /** One group of four: three bytes, or fewer when it is padded and `last`. */
  function DecodeQuad(p: byte, q: byte, r: byte, s: byte, last: bool): Option<Bytes> {
    var v0 :- Value(p);
    var v1 :- Value(q);
    if r == PAD then
      if s == PAD && last then Some([B0(v0, v1)]) else None
    else
      var v2 :- Value(r);
      if s == PAD then
        if last then Some([B0(v0, v1), B1(v1, v2)]) else None
      else
        var v3 :- Value(s);
        Some([B0(v0, v1), B1(v1, v2), B2(v2, v3)])
  }

  function Decode(text: Bytes): Option<Bytes> {
    if text == [] then Some([])
    else if |text| < 4 then None
    else
      var head :- DecodeQuad(text[0], text[1], text[2], text[3], |text| == 4);
      var tail :- Decode(text[4..]);
      Some(head + tail)
  }

  lemma FullQuad(p: Sextet, q: Sextet, r: Sextet, s: Sextet, rest: Bytes)
    ensures Decode(Quad(p, q, r, s) + rest)
      == match Decode(rest) case None => None case Some(tail) => Some([B0(p, q), B1(q, r), B2(r, s)] + tail)
  {
    var text := Quad(p, q, r, s) + rest;
    assert text[4..] == rest;
    CharValue(p);
    CharValue(q);
    CharValue(r);
    CharValue(s);
    assert DecodeQuad(text[0], text[1], text[2], text[3], |text| == 4) == Some([B0(p, q), B1(q, r), B2(r, s)]);
  }

  lemma OneByteQuad(p: Sextet, q: Sextet)
    ensures Decode(OneByte(p, q)) == Some([B0(p, q)])
  {
    CharValue(p);
    CharValue(q);
    assert OneByte(p, q)[4..] == [];
    assert [B0(p, q)] + [] == [B0(p, q)];
  }

  lemma TwoByteQuad(p: Sextet, q: Sextet, r: Sextet)
    ensures Decode(TwoBytes(p, q, r)) == Some([B0(p, q), B1(q, r)])
  {
    CharValue(p);
    CharValue(q);
    CharValue(r);
    assert TwoBytes(p, q, r)[4..] == [];
    assert [B0(p, q), B1(q, r)] + [] == [B0(p, q), B1(q, r)];
  }

  lemma {:induction false} RoundTrip(data: Bytes)
    ensures Decode(Encode(data)) == Some(data)
  {
    if |data| >= 3 {
      var a, b, c := data[0], data[1], data[2];
      RoundTrip(data[3..]);
      SextetsRoundTrip(a, b, c);
      QuadReads(data, S0(a), S1(a, b), S2(b, c), S3(c), Encode(data[3..]));
    } else if |data| == 2 {
      var a, b := data[0], data[1];
      SextetsRoundTrip(a, b, 0);
      TwoBytesRead(data, S0(a), S1(a, b), S2(b, 0));
    } else if |data| == 1 {
      SextetsRoundTrip(data[0], 0, 0);
      OneByteReads(data, S0(data[0]), S1(data[0], 0));
    }
  }

  /** These sextets are the first three bytes of the data. */
  predicate Carry(data: Bytes, p: Sextet, q: Sextet, r: Sextet, s: Sextet) {
    |data| >= 3 && B0(p, q) == data[0] && B1(q, r) == data[1] && B2(r, s) == data[2]
  }

  lemma QuadReads(data: Bytes, p: Sextet, q: Sextet, r: Sextet, s: Sextet, rest: Bytes)
    requires Carry(data, p, q, r, s) && Decode(rest) == Some(data[3..])
    ensures Decode(Quad(p, q, r, s) + rest) == Some(data)
  {
    FullQuad(p, q, r, s, rest);
    assert [data[0], data[1], data[2]] + data[3..] == data;
  }

  lemma TwoBytesRead(data: Bytes, p: Sextet, q: Sextet, r: Sextet)
    requires |data| == 2 && B0(p, q) == data[0] && B1(q, r) == data[1]
    ensures Decode(TwoBytes(p, q, r)) == Some(data)
  {
    TwoByteQuad(p, q, r);
    assert data == [data[0], data[1]];
  }

  lemma OneByteReads(data: Bytes, p: Sextet, q: Sextet)
    requires |data| == 1 && B0(p, q) == data[0]
    ensures Decode(OneByte(p, q)) == Some(data)
  {
    OneByteQuad(p, q);
    assert data == [data[0]];
  }

  lemma {:induction false} Shape(data: Bytes)
    ensures |Encode(data)| == 4 * ((|data| + 2) / 3)
    ensures NEWLINE !in Encode(data)
  {
    if |data| >= 3 {
      Shape(data[3..]);
      OneMoreQuad(|data|);
    }
  }

  lemma OneMoreQuad(n: nat)
    requires n >= 3
    ensures (n + 2) / 3 == 1 + (n - 3 + 2) / 3
  {
  }

  /** A cut encoding is unreadable, or reads as a proper prefix when the cut fell between groups. */
  lemma {:induction false} Truncated(data: Bytes, k: nat)
    requires k < |Encode(data)|
    ensures 3 * (k / 4) < |data|
    ensures Decode(Encode(data)[..k]) == if k % 4 == 0 then Some(data[..3 * (k / 4)]) else None
  {
    if k >= 4 {
      var a, b, c := data[0], data[1], data[2];
      Truncated(data[3..], k - 4);
      SextetsRoundTrip(a, b, c);
      TruncatedStep(data, S0(a), S1(a, b), S2(b, c), S3(c), Encode(data[3..]), k);
    }
  }

  lemma TruncatedStep(data: Bytes, p: Sextet, q: Sextet, r: Sextet, s: Sextet, rest: Bytes, k: nat)
    requires Carry(data, p, q, r, s) && 4 <= k <= 4 + |rest|
    requires 3 * ((k - 4) / 4) < |data[3..]|
    requires Decode(rest[..k - 4]) == if (k - 4) % 4 == 0 then Some(data[3..][..3 * ((k - 4) / 4)]) else None
    ensures 3 * (k / 4) < |data|
    ensures Decode((Quad(p, q, r, s) + rest)[..k]) == if k % 4 == 0 then Some(data[..3 * (k / 4)]) else None
  {
    GroupsBefore(k);
    TakeBeyond(Quad(p, q, r, s), rest, k);
    FullQuad(p, q, r, s, rest[..k - 4]);
    TakeBeyondData(data, 3 * ((k - 4) / 4));
  }

  lemma GroupsBefore(k: nat)
    requires k >= 4
    ensures k / 4 == (k - 4) / 4 + 1 && k % 4 == (k - 4) % 4
  {
  }

  lemma TakeBeyond(head: Bytes, rest: Bytes, k: nat)
    requires |head| == 4 <= k <= 4 + |rest|
    ensures (head + rest)[..k] == head + rest[..k - 4]
  {
  }

  lemma TakeBeyondData(data: Bytes, n: nat)
    requires |data| >= 3 + n
    ensures [data[0], data[1], data[2]] + data[3..][..n] == data[..3 + n]
  {
  }

  /** Padding stands in the last two places or the last, and nothing comes after it. */
  ghost predicate PadsAtEnd(text: Bytes) {
    |text| % 4 == 0 && forall i :: 0 <= i < |text| && text[i] == PAD ==> i >= |text| - 2 && text[|text| - 1] == PAD
  }

  /** What is decoded at all is whole groups of four, padded nowhere but at the end. */
  lemma {:induction false} DecodedIsWhole(text: Bytes)
    requires Decode(text).Some?
    ensures PadsAtEnd(text)
    decreases |text|
  {
    if text != [] {
      DecodedIsWhole(text[4..]);
      QuadPads(text[0], text[1], text[2], text[3], |text| == 4);
      PadsBehind(text);
    }
  }

  lemma PadsBehind(text: Bytes)
    requires |text| >= 4 && PadsAtEnd(text[4..])
    requires text[0] != PAD && text[1] != PAD && (text[2] == PAD ==> text[3] == PAD) && (text[3] == PAD ==> |text| == 4)
    ensures PadsAtEnd(text)
  {
    GroupsBefore(|text|);
    var rest := text[4..];
    forall i | 0 <= i < |text| && text[i] == PAD ensures i >= |text| - 2 && text[|text| - 1] == PAD {
      if i >= 4 {
        assert rest[i - 4] == PAD && rest[|rest| - 1] == text[|text| - 1];
      }
    }
  }

  lemma QuadPads(p: byte, q: byte, r: byte, s: byte, last: bool)
    requires DecodeQuad(p, q, r, s, last).Some?
    ensures p != PAD && q != PAD && (r == PAD ==> s == PAD) && (s == PAD ==> last)
  {
  }
}
