/**
 The packed frequency multiset `BufferTokSet` of `src/markov.rs`.

 One byte buffer holds three segments, one after the other:
   - `c1` one-byte entries,
   - `c2` two-byte little-endian entries,
   - three-byte little-endian entries filling the rest of the buffer.
 The logical contents are the decoded entries of segment 1, then of
 segment 2, then of segment 3; a weighted draw is a uniform draw of a
 logical index, so an identifier's weight is its number of occurrences.
 */
module TokenSet {
  import opened Types

  datatype BufferTokSet = BufferTokSet(buf: seq<u8>, c2: u16, c1: u16)

  /** Byte offset of the first three-byte entry. */
  function Start3(s: BufferTokSet): int {
    s.c1 + 2 * s.c2
  }

  /**
   The counters fit in the buffer, and what follows segment 2 is a whole
   number of three-byte entries: the buffer's byte length is
   `c1 + 2 * c2 + 3 * (number of three-byte entries)`.
   */
  ghost predicate Valid(s: BufferTokSet) {
    && Start3(s) <= |s.buf|
    && (|s.buf| - Start3(s)) % 3 == 0
  }

  // ---------------------------------------------------------------------------
  // Decoding

  /** A little-endian byte pair. */
  function Le2(b0: u8, b1: u8): TokId {
    b0 + 0x100 * b1
  }

  /** A little-endian byte triple. */
  function Le3(b0: u8, b1: u8, b2: u8): TokId {
    b0 + 0x100 * b1 + 0x1_0000 * b2
  }

  /** One identifier per byte. */
  function Decode1(bs: seq<u8>): (r: seq<TokId>)
    ensures |r| == |bs|
    ensures forall i :: 0 <= i < |bs| ==> r[i] == bs[i]
  {
    seq(|bs|, i requires 0 <= i < |bs| => bs[i])
  }

  /** One identifier per byte pair; an odd trailing byte is not an entry. */
  function Decode2(bs: seq<u8>): (r: seq<TokId>)
    ensures 2 * |r| <= |bs| < 2 * |r| + 2
    ensures forall i :: 0 <= i < |r| ==> r[i] == Le2(bs[2 * i], bs[2 * i + 1])
  {
    seq(|bs| / 2, i requires 0 <= i < |bs| / 2 => Le2(bs[2 * i], bs[2 * i + 1]))
  }

  /** One identifier per byte triple; one or two trailing bytes are not an entry. */
  function Decode3(bs: seq<u8>): (r: seq<TokId>)
    ensures 3 * |r| <= |bs| < 3 * |r| + 3
    ensures forall i :: 0 <= i < |r| ==> r[i] == Le3(bs[3 * i], bs[3 * i + 1], bs[3 * i + 2])
  {
    seq(|bs| / 3, i requires 0 <= i < |bs| / 3 => Le3(bs[3 * i], bs[3 * i + 1], bs[3 * i + 2]))
  }

  /** Appending a byte pair to whole pairs appends one entry. */
  lemma Decode2Append(bs: seq<u8>, b0: u8, b1: u8)
    requires |bs| == 2 * |Decode2(bs)|
    ensures Decode2(bs + [b0, b1]) == Decode2(bs) + [Le2(b0, b1)]
  {
    var l, r := Decode2(bs + [b0, b1]), Decode2(bs) + [Le2(b0, b1)];
    assert |l| == |r|;
    forall i | 0 <= i < |l|
      ensures l[i] == r[i]
    {
      if i < |Decode2(bs)| {
        assert (bs + [b0, b1])[2 * i] == bs[2 * i];
        assert (bs + [b0, b1])[2 * i + 1] == bs[2 * i + 1];
      }
    }
  }

  /** Appending a byte triple to whole triples appends one entry. */
  lemma Decode3Append(bs: seq<u8>, b0: u8, b1: u8, b2: u8)
    requires |bs| == 3 * |Decode3(bs)|
    ensures Decode3(bs + [b0, b1, b2]) == Decode3(bs) + [Le3(b0, b1, b2)]
  {
    var l, r := Decode3(bs + [b0, b1, b2]), Decode3(bs) + [Le3(b0, b1, b2)];
    assert |l| == |r|;
    forall i | 0 <= i < |l|
      ensures l[i] == r[i]
    {
      if i < |Decode3(bs)| {
        assert (bs + [b0, b1, b2])[3 * i] == bs[3 * i];
        assert (bs + [b0, b1, b2])[3 * i + 1] == bs[3 * i + 1];
        assert (bs + [b0, b1, b2])[3 * i + 2] == bs[3 * i + 2];
      }
    }
  }

  function Seg1(s: BufferTokSet): seq<TokId>
    requires Valid(s)
  {
    Decode1(s.buf[..s.c1])
  }

  function Seg2(s: BufferTokSet): seq<TokId>
    requires Valid(s)
  {
    Decode2(s.buf[s.c1..Start3(s)])
  }

  function Seg3(s: BufferTokSet): seq<TokId>
    requires Valid(s)
  {
    Decode3(s.buf[Start3(s)..])
  }

  /** The logical contents, in index order. */
  function Elements(s: BufferTokSet): seq<TokId>
    requires Valid(s)
  {
    Seg1(s) + Seg2(s) + Seg3(s)
  }

  /** The contents as a multiset: what a weighted draw sees. */
  function Content(s: BufferTokSet): multiset<TokId>
    requires Valid(s)
  {
    multiset(Elements(s))
  }

  /** The segment sizes are the counters and the number of three-byte entries left in the buffer. */
  lemma SegmentSizes(s: BufferTokSet)
    requires Valid(s)
    ensures |Seg1(s)| == s.c1 && |Seg2(s)| == s.c2
    ensures |s.buf| == |Seg1(s)| + 2 * |Seg2(s)| + 3 * |Seg3(s)|
  {
  }

  // ---------------------------------------------------------------------------
  // Operations

  /** An empty buffer with zero counters holds nothing. */
  lemma EmptyIsValid(s: BufferTokSet)
    requires |s.buf| == 0 && s.c1 == 0 && s.c2 == 0
    ensures Valid(s) && Elements(s) == []
  {
    assert s.buf[Start3(s)..] == s.buf;
  }

  function New(): (s: BufferTokSet)
    ensures Valid(s) && Elements(s) == []
  {
    var s := BufferTokSet([], 0, 0);
    EmptyIsValid(s);
    s
  }

  /** Number of stored occurrences, recomputed from the counters and the buffer length. */
  function Length(s: BufferTokSet): (n: nat)
    requires Valid(s)
    ensures n == |Elements(s)|
  {
    s.c1 + s.c2 + (|s.buf| - s.c1 - s.c2 * 2) / 3
  }

  /** A multiset is empty exactly when its buffer is. */
  lemma EmptyIffNoBytes(s: BufferTokSet)
    requires Valid(s)
    ensures Length(s) == 0 <==> |s.buf| == 0
  {
    SegmentSizes(s);
  }

  /** Decodes logical index `index`: the segment and byte offset follow from `c1` and `c2`. */
  function Get(s: BufferTokSet, index: nat): (id: TokId)
    requires Valid(s) && index < Length(s)
    ensures id == Elements(s)[index]
    ensures id <= MaxTokId
  {
    SegmentSizes(s);
    if index < s.c1 then
      s.buf[index]
    else if index < s.c1 + s.c2 then
      var k := index - s.c1;
      var i := s.c1 + k * 2;
      assert s.buf[s.c1..Start3(s)][2 * k] == s.buf[i];
      assert s.buf[s.c1..Start3(s)][2 * k + 1] == s.buf[i + 1];
      s.buf[i] as int + s.buf[i + 1] as int * 0x100
    else
      var k := index - s.c1 - s.c2;
      var i := s.c1 + s.c2 * 2 + k * 3;
      assert s.buf[Start3(s)..][3 * k] == s.buf[i];
      assert s.buf[Start3(s)..][3 * k + 1] == s.buf[i + 1];
      assert s.buf[Start3(s)..][3 * k + 2] == s.buf[i + 2];
      s.buf[i] as int + s.buf[i + 1] as int * 0x100 + s.buf[i + 2] as int * 0x1_0000
  }

  /** `Vec::insert`: puts `x` at position `i`, shifting the later bytes up by one. */
  function Insert(xs: seq<u8>, i: nat, x: u8): seq<u8>
    requires i <= |xs|
  {
    xs[..i] + [x] + xs[i..]
  }

  /** Low byte, as the source's `as u8` truncation. */
  function Low(x: nat): u8 {
    x % 0x100
  }

  /** Inserts the low byte at the end of segment 1. */
  function Add1(s: BufferTokSet, tok: TokId): (r: BufferTokSet)
    requires Valid(s) && s.c1 < 0xFFFF
    ensures Valid(r) && r.c1 == s.c1 + 1 && r.c2 == s.c2 && |r.buf| == |s.buf| + 1
  {
    BufferTokSet(Insert(s.buf, s.c1, Low(tok)), s.c2, s.c1 + 1)
  }

  /** Segment 1 grows by the value truncated to one byte; the other segments keep their entries. */
  lemma Add1Segments(s: BufferTokSet, tok: TokId)
    requires Valid(s) && s.c1 < 0xFFFF
    ensures Seg1(Add1(s, tok)) == Seg1(s) + [tok % 0x100]
    ensures Seg2(Add1(s, tok)) == Seg2(s) && Seg3(Add1(s, tok)) == Seg3(s)
  {
    var r := Add1(s, tok);
    assert r.buf[..r.c1] == s.buf[..s.c1] + [Low(tok)];
    assert r.buf[r.c1..Start3(r)] == s.buf[s.c1..Start3(s)];
    assert r.buf[Start3(r)..] == s.buf[Start3(s)..];
  }

  /** Two low bytes decode back to the value modulo 2^16. */
  lemma TwoBytes(x: nat)
    ensures Le2(Low(x), Low(x / 0x100)) == x % 0x1_0000
  {
    var q := x / 0x100;
    assert x == 0x100 * q + x % 0x100;
    assert q == 0x100 * (q / 0x100) + q % 0x100;
    assert x == 0x1_0000 * (q / 0x100) + Le2(Low(x), Low(q));
  }

  /** Three low bytes decode back to the value modulo 2^24. */
  lemma ThreeBytes(x: nat)
    ensures Le3(Low(x), Low(x / 0x100), Low(x / 0x1_0000)) == x % 0x100_0000
  {
    var q := x / 0x100;
    var q2 := q / 0x100;
    var low := Le3(Low(x), Low(q), Low(q2));
    ByteSplit(x);
    ByteSplit(q);
    ByteSplit(q2);
    SecondByte(x);
    Below24(x, q2 / 0x100, low);
  }

  /** A value is 256 times its quotient plus its low byte. */
  lemma ByteSplit(x: nat)
    ensures x == 0x100 * (x / 0x100) + Low(x)
  {
  }

  /** Dividing by 2^16 is dividing by 256 twice. */
  lemma SecondByte(x: nat)
    ensures x / 0x1_0000 == x / 0x100 / 0x100
  {
    var q := x / 0x100;
    ByteSplit(x);
    ByteSplit(q);
    assert x == 0x1_0000 * (q / 0x100) + (0x100 * Low(q) + Low(x));
  }

  /** The residue modulo 2^24 of `2^24 * q + low`, for `low` below 2^24. */
  lemma Below24(x: nat, q: nat, low: nat)
    requires x == 0x100_0000 * q + low && low < 0x100_0000
    ensures x % 0x100_0000 == low
  {
  }

  /** The two inserted bytes sit between segment 2 and segment 3. */
  lemma Add2Layout(s: BufferTokSet, b1: u8, b2: u8, r: BufferTokSet)
    requires Valid(s) && s.c2 < 0xFFFF
    requires r == BufferTokSet(Insert(Insert(s.buf, Start3(s), b1), Start3(s) + 1, b2), s.c2 + 1, s.c1)
    ensures |r.buf| == |s.buf| + 2
    ensures r.buf[..r.c1] == s.buf[..s.c1]
    ensures r.buf[r.c1..Start3(r)] == s.buf[s.c1..Start3(s)] + [b1, b2]
    ensures r.buf[Start3(r)..] == s.buf[Start3(s)..]
  {
    assert r.buf == s.buf[..Start3(s)] + [b1, b2] + s.buf[Start3(s)..];
  }

  /** Segment 2 grows by the decoded pair when its bytes grow by that pair. */
  lemma Add2Segments(s: BufferTokSet, b1: u8, b2: u8, r: BufferTokSet)
    requires Valid(s) && Valid(r) && s.c2 < 0xFFFF
    requires r.c1 == s.c1 && r.c2 == s.c2 + 1 && |r.buf| == |s.buf| + 2
    requires r.buf[..r.c1] == s.buf[..s.c1]
    requires r.buf[r.c1..Start3(r)] == s.buf[s.c1..Start3(s)] + [b1, b2]
    requires r.buf[Start3(r)..] == s.buf[Start3(s)..]
    ensures Seg2(r) == Seg2(s) + [Le2(b1, b2)]
    ensures Seg1(r) == Seg1(s) && Seg3(r) == Seg3(s)
  {
    SegmentSizes(s);
    Decode2Append(s.buf[s.c1..Start3(s)], b1, b2);
  }

  /** Inserts two little-endian bytes at the end of segment 2, shifting segment 3 up. */
  function Add2(s: BufferTokSet, tok: TokId): (r: BufferTokSet)
    requires Valid(s) && s.c2 < 0xFFFF
    ensures Valid(r) && r.c1 == s.c1 && r.c2 == s.c2 + 1 && |r.buf| == |s.buf| + 2
  {
    var at := s.c1 + s.c2 * 2;
    BufferTokSet(Insert(Insert(s.buf, at, Low(tok)), at + 1, Low(tok / 0x100)), s.c2 + 1, s.c1)
  }

  /** Segment 2 grows by the value modulo 2^16; the other segments keep their entries. */
  lemma Add2Grows(s: BufferTokSet, tok: TokId)
    requires Valid(s) && s.c2 < 0xFFFF
    ensures Seg2(Add2(s, tok)) == Seg2(s) + [tok % 0x1_0000]
    ensures Seg1(Add2(s, tok)) == Seg1(s) && Seg3(Add2(s, tok)) == Seg3(s)
  {
    var r := Add2(s, tok);
    var byte1, byte2 := Low(tok), Low(tok / 0x100);
    TwoBytes(tok);
    assert Le2(byte1, byte2) == tok % 0x1_0000;
    Add2Layout(s, byte1, byte2, r);
    Add2Segments(s, byte1, byte2, r);
  }

  /** Appends three little-endian bytes at the end of segment 3. */
  function Add3(s: BufferTokSet, tok: TokId): (r: BufferTokSet)
    requires Valid(s)
    ensures Valid(r) && r.c1 == s.c1 && r.c2 == s.c2 && |r.buf| == |s.buf| + 3
  {
    BufferTokSet(s.buf + [Low(tok), Low(tok / 0x100), Low(tok / 0x1_0000)], s.c2, s.c1)
  }

  /** Segment 3 grows by the value modulo 2^24; nothing before it moves. */
  lemma Add3Grows(s: BufferTokSet, tok: TokId)
    requires Valid(s)
    ensures Seg3(Add3(s, tok)) == Seg3(s) + [tok % 0x100_0000]
    ensures Seg1(Add3(s, tok)) == Seg1(s) && Seg2(Add3(s, tok)) == Seg2(s)
  {
    var r := Add3(s, tok);
    var bytes := [Low(tok), Low(tok / 0x100), Low(tok / 0x1_0000)];
    assert r.buf[..r.c1] == s.buf[..s.c1];
    assert r.buf[r.c1..Start3(r)] == s.buf[s.c1..Start3(s)];
    assert r.buf[Start3(r)..] == s.buf[Start3(s)..] + bytes;
    ThreeBytes(tok);
    Decode3Append(s.buf[Start3(s)..], bytes[0], bytes[1], bytes[2]);
  }

  /**
   The segment an identifier goes to given the counters `c1` and `c2`: its
   size class, spilling upward while a counter is full.
   */
  function Slot(c1: nat, c2: nat, entry: TokId): (seg: nat)
    ensures 1 <= seg <= 3
  {
    if entry <= 0xFF && c1 < 0xFFFF then 1
    else if entry <= 0xFFFF && c2 < 0xFFFF then 2
    else 3
  }

  /** The segment `Add` stores an identifier in. */
  function Route(s: BufferTokSet, entry: TokId): (seg: nat)
    ensures 1 <= seg <= 3
  {
    Slot(s.c1, s.c2, entry)
  }

  /** Segment `k` of `r` is segment `k` of `s` followed by `x`; the other two segments are equal. */
  ghost predicate Appended(s: BufferTokSet, r: BufferTokSet, k: nat, x: TokId)
    requires Valid(s) && Valid(r)
  {
    && Seg1(r) == (if k == 1 then Seg1(s) + [x] else Seg1(s))
    && Seg2(r) == (if k == 2 then Seg2(s) + [x] else Seg2(s))
    && Seg3(r) == (if k == 3 then Seg3(s) + [x] else Seg3(s))
  }

  /**
   Adds one occurrence of `entry`. Identifiers above `MaxTokId` are a fatal
   error in the source, so they are excluded here.
   */
  function Add(s: BufferTokSet, entry: TokId): (r: BufferTokSet)
    requires Valid(s) && entry <= MaxTokId
    ensures Valid(r) && |s.buf| < |r.buf|
  {
    if entry <= 0xFF && s.c1 < 0xFFFF then Add1(s, entry)
    else if entry <= 0xFFFF && s.c2 < 0xFFFF then Add2(s, entry)
    else Add3(s, entry)
  }

  /** The entry lands at the end of the segment `Route` picks, undamaged; the other segments keep theirs. */
  lemma AddAppends(s: BufferTokSet, entry: TokId)
    requires Valid(s) && entry <= MaxTokId
    ensures Appended(s, Add(s, entry), Route(s, entry), entry)
  {
    if entry <= 0xFF && s.c1 < 0xFFFF {
      assert entry % 0x100 == entry;
      Add1Segments(s, entry);
    } else if entry <= 0xFFFF && s.c2 < 0xFFFF {
      assert entry % 0x1_0000 == entry;
      Add2Grows(s, entry);
    } else {
      assert entry % 0x100_0000 == entry;
      Add3Grows(s, entry);
    }
  }

  /** Adding an identifier adds one occurrence to the count. */
  lemma AddLength(s: BufferTokSet, entry: TokId)
    requires Valid(s) && entry <= MaxTokId
    ensures Length(Add(s, entry)) == Length(s) + 1
  {
    var r := Add(s, entry);
    var rest := |s.buf| - s.c1 - s.c2 * 2;
    assert |r.buf| - r.c1 - r.c2 * 2 == if Route(s, entry) == 3 then rest + 3 else rest;
    assert (rest + 3) / 3 == rest / 3 + 1;
  }

  /** Adding an identifier adds exactly one occurrence of it and nothing else. */
  lemma AddContent(s: BufferTokSet, entry: TokId)
    requires Valid(s) && entry <= MaxTokId
    ensures Content(Add(s, entry)) == Content(s) + multiset{entry}
  {
    AddAppends(s, entry);
    GrowsBy(s, Add(s, entry), Route(s, entry), entry);
  }

  /** Appending one identifier to one segment adds exactly one occurrence of it. */
  lemma GrowsBy(s: BufferTokSet, r: BufferTokSet, k: nat, entry: TokId)
    requires Valid(s) && Valid(r) && 1 <= k <= 3 && Appended(s, r, k, entry)
    ensures |Elements(r)| == |Elements(s)| + 1
    ensures Content(r) == Content(s) + multiset{entry}
  {
  }

  /**
   A weighted draw. The source draws an index uniformly from
   `[0, length())`, a range that must not be empty; here the caller
   supplies the random number `draw` and the index is `draw % length()`.
   The result is one of the stored identifiers.
   */
  function Choose(s: BufferTokSet, draw: nat): (id: TokId)
    requires Valid(s) && Length(s) > 0
    ensures id in Elements(s)
    ensures id <= MaxTokId
  {
    Get(s, draw % Length(s))
  }

  /** Every stored occurrence can be drawn: index `n` is reached by the draw `n`. */
  lemma ChooseReaches(s: BufferTokSet, n: nat)
    requires Valid(s) && n < Length(s)
    ensures Choose(s, n) == Elements(s)[n]
  {
    var len := Length(s);
    ModBelow(n, len);
  }

  lemma ModBelow(n: nat, m: nat)
    requires n < m
    ensures n % m == n
  {
  }
}
