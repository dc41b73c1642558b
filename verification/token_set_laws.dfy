/**
 Laws of the packed multiset over whole insertion histories: the element
 count, the contents, the order in which `Get` reads the entries back,
 and the two multi-insertion scenarios the source's own tests exercise.
 */
module TokenSetLaws {
  import opened Types
  import opened TokenSet

  /** Adds the identifiers of `xs` one after the other. */
  function AddAll(s: BufferTokSet, xs: seq<TokId>): (r: BufferTokSet)
    requires Valid(s)
    requires forall i :: 0 <= i < |xs| ==> xs[i] <= MaxTokId
    ensures Valid(r)
    decreases |xs|
  {
    if |xs| == 0 then s else AddAll(Add(s, xs[0]), xs[1..])
  }

  /** After adding `k` identifiers the count has grown by `k`. */
  lemma {:induction false} AddAllLength(s: BufferTokSet, xs: seq<TokId>)
    requires Valid(s)
    requires forall i :: 0 <= i < |xs| ==> xs[i] <= MaxTokId
    ensures Length(AddAll(s, xs)) == Length(s) + |xs|
    decreases |xs|
  {
    if |xs| > 0 {
      var s' := Add(s, xs[0]);
      AddAllLength(s', xs[1..]);
      AddLength(s, xs[0]);
      assert AddAll(s, xs) == AddAll(s', xs[1..]);
    }
  }

  /** One step of a multiset fold: adding the head, then the tail, adds the whole sequence. */
  lemma MultisetStep(a: multiset<TokId>, b: multiset<TokId>, xs: seq<TokId>)
    requires |xs| > 0 && b == a + multiset{xs[0]}
    ensures b + multiset(xs[1..]) == a + multiset(xs)
  {
    assert xs == [xs[0]] + xs[1..];
  }

  /** After adding the identifiers of `xs`, the contents have grown by exactly those identifiers. */
  lemma {:induction false} AddAllContent(s: BufferTokSet, xs: seq<TokId>)
    requires Valid(s)
    requires forall i :: 0 <= i < |xs| ==> xs[i] <= MaxTokId
    ensures Content(AddAll(s, xs)) == Content(s) + multiset(xs)
    decreases |xs|
  {
    if |xs| > 0 {
      var s' := Add(s, xs[0]);
      AddAllContent(s', xs[1..]);
      AddContent(s, xs[0]);
      assert AddAll(s, xs) == AddAll(s', xs[1..]);
      MultisetStep(Content(s), Content(s'), xs);
    }
  }

  /** The size class of an identifier: how many bytes it needs (1, 2 or 3). */
  function Class(x: TokId): (k: nat)
    ensures 1 <= k <= 3
  {
    if x <= 0xFF then 1 else if x <= 0xFFFF then 2 else 3
  }

  /** The identifiers of `xs` whose size class is `k`, in order. */
  function OfClass(xs: seq<TokId>, k: nat): (r: seq<TokId>)
    ensures |r| <= |xs|
  {
    if |xs| == 0 then [] else Only(xs[0], k) + OfClass(xs[1..], k)
  }

  /** `[x]` when `x` has size class `k`, else nothing. */
  function Only(x: TokId, k: nat): seq<TokId> {
    if Class(x) == k then [x] else []
  }

  /** Segment `k` (1, 2 or 3) of a multiset. */
  function Segment(s: BufferTokSet, k: nat): seq<TokId>
    requires Valid(s) && 1 <= k <= 3
  {
    if k == 1 then Seg1(s) else if k == 2 then Seg2(s) else Seg3(s)
  }

  /** The three size classes partition the identifiers. */
  lemma {:induction false} PartitionSizes(xs: seq<TokId>)
    ensures |OfClass(xs, 1)| + |OfClass(xs, 2)| + |OfClass(xs, 3)| == |xs|
    decreases |xs|
  {
    if |xs| > 0 {
      PartitionSizes(xs[1..]);
    }
  }

  /** One addition puts the identifier in the segment of its size class while the counters have room. */
  lemma AddOne(s: BufferTokSet, x: TokId, k: nat)
    requires Valid(s) && x <= MaxTokId && 1 <= k <= 3
    requires s.c1 + |Only(x, 1)| <= 0xFFFF && s.c2 + |Only(x, 2)| <= 0xFFFF
    ensures Segment(Add(s, x), k) == Segment(s, k) + Only(x, k)
  {
    var r := Add(s, x);
    AddAppends(s, x);
    assert Route(s, x) == Class(x);
    assert Appended(s, r, Class(x), x);
    if k != Class(x) {
      assert Segment(s, k) + [] == Segment(s, k);
    }
  }

  /** Adding one identifier moves the counters by the sizes of its class. */
  lemma AddOneCounters(s: BufferTokSet, x: TokId)
    requires Valid(s) && x <= MaxTokId
    requires s.c1 + |Only(x, 1)| <= 0xFFFF && s.c2 + |Only(x, 2)| <= 0xFFFF
    ensures Add(s, x).c1 == s.c1 + |Only(x, 1)| && Add(s, x).c2 == s.c2 + |Only(x, 2)|
  {
    AddOne(s, x, 1);
    AddOne(s, x, 2);
    SegmentSizes(s);
    SegmentSizes(Add(s, x));
  }

  /**
   While neither 16-bit counter fills up, each identifier lands in the
   segment of its own size class, in insertion order.
   */
  lemma {:induction false} AddAllSegments(s: BufferTokSet, xs: seq<TokId>, k: nat)
    requires Valid(s) && 1 <= k <= 3
    requires forall i :: 0 <= i < |xs| ==> xs[i] <= MaxTokId
    requires s.c1 + |OfClass(xs, 1)| <= 0xFFFF && s.c2 + |OfClass(xs, 2)| <= 0xFFFF
    ensures Segment(AddAll(s, xs), k) == Segment(s, k) + OfClass(xs, k)
    decreases |xs|
  {
    if |xs| > 0 {
      var x, rest := xs[0], xs[1..];
      var s' := Add(s, x);
      AddOneCounters(s, x);
      AddOne(s, x, k);
      AddAllSegments(s', rest, k);
      assert AddAll(s, xs) == AddAll(s', rest);
      Regroup(Segment(AddAll(s', rest), k), Segment(s', k), Segment(s, k), Only(x, k), OfClass(rest, k));
    }
  }

  /** Two appends in a row are one append of the concatenation. */
  lemma Regroup(t: seq<TokId>, m: seq<TokId>, a: seq<TokId>, d: seq<TokId>, e: seq<TokId>)
    requires m == a + d && t == m + e
    ensures t == a + (d + e)
  {
  }

  /** Built from an empty multiset, the contents are grouped by size class, each group in insertion order. */
  lemma BuiltElements(e: BufferTokSet, xs: seq<TokId>)
    requires Valid(e) && Length(e) == 0
    requires forall k :: 0 <= k < |xs| ==> xs[k] <= MaxTokId
    requires |OfClass(xs, 1)| <= 0xFFFF && |OfClass(xs, 2)| <= 0xFFFF
    ensures Elements(AddAll(e, xs)) == OfClass(xs, 1) + OfClass(xs, 2) + OfClass(xs, 3)
  {
    var s := AddAll(e, xs);
    SegmentSizes(e);
    assert Segment(e, 1) == [] && Segment(e, 2) == [] && Segment(e, 3) == [];
    AddAllSegments(e, xs, 1);
    AddAllSegments(e, xs, 2);
    AddAllSegments(e, xs, 3);
    assert Seg1(s) == OfClass(xs, 1) by {
      assert [] + OfClass(xs, 1) == OfClass(xs, 1);
    }
    assert Seg2(s) == OfClass(xs, 2) by {
      assert [] + OfClass(xs, 2) == OfClass(xs, 2);
    }
    assert Seg3(s) == OfClass(xs, 3) by {
      assert [] + OfClass(xs, 3) == OfClass(xs, 3);
    }
  }

  /**
   Round trip: reading back index `i` of a multiset built from an empty
   one gives the `i`-th of the one-byte identifiers, then the two-byte
   ones, then the three-byte ones, each group in insertion order.
   */
  lemma ReadBack(e: BufferTokSet, xs: seq<TokId>, i: nat)
    requires Valid(e) && Length(e) == 0
    requires forall k :: 0 <= k < |xs| ==> xs[k] <= MaxTokId
    requires |OfClass(xs, 1)| <= 0xFFFF && |OfClass(xs, 2)| <= 0xFFFF
    requires i < |xs|
    ensures |OfClass(xs, 1)| + |OfClass(xs, 2)| + |OfClass(xs, 3)| == |xs|
    ensures Length(AddAll(e, xs)) == |xs|
    ensures Get(AddAll(e, xs), i) == (OfClass(xs, 1) + OfClass(xs, 2) + OfClass(xs, 3))[i]
  {
    PartitionSizes(xs);
    AddAllLength(e, xs);
    BuiltElements(e, xs);
  }

  /** A draw from a multiset built from an empty one always returns one of the identifiers added. */
  lemma ChooseReturnsInserted(e: BufferTokSet, xs: seq<TokId>, draw: nat)
    requires Valid(e) && Length(e) == 0
    requires forall k :: 0 <= k < |xs| ==> xs[k] <= MaxTokId
    requires |xs| > 0
    ensures Length(AddAll(e, xs)) == |xs|
    ensures Choose(AddAll(e, xs), draw) in xs
  {
    var s := AddAll(e, xs);
    AddAllLength(e, xs);
    AddAllContent(e, xs);
    assert Content(e) == multiset{};
    var id := Choose(s, draw);
    assert id in multiset(Elements(s));
    assert id in multiset(xs);
  }

  // ---------------------------------------------------------------------------
  // Any history, the full counters included

  /** The three groups a history is filed into, one per segment. */
  datatype Filing = Filing(s1: seq<TokId>, s2: seq<TokId>, s3: seq<TokId>)

  /** Group `k` (1, 2 or 3) of a filing. */
  function Part(f: Filing, k: nat): seq<TokId> {
    if k == 1 then f.s1 else if k == 2 then f.s2 else f.s3
  }

  /**
   Where a history goes, identifier by identifier, starting from counters
   `c1` and `c2`: each to the group `Slot` names, moving that group's
   counter when it is 1 or 2.
   */
  function File(c1: nat, c2: nat, xs: seq<TokId>): (f: Filing)
    ensures |f.s1| + |f.s2| + |f.s3| == |xs|
    decreases |xs|
  {
    if |xs| == 0 then Filing([], [], [])
    else
      var x, rest := xs[0], xs[1..];
      match Slot(c1, c2, x)
      case 1 => var f := File(c1 + 1, c2, rest); f.(s1 := [x] + f.s1)
      case 2 => var f := File(c1, c2 + 1, rest); f.(s2 := [x] + f.s2)
      case _ => var f := File(c1, c2, rest); f.(s3 := [x] + f.s3)
  }

  /** One addition moves exactly the counter of the segment it went to. */
  lemma AddCounters(s: BufferTokSet, x: TokId)
    requires Valid(s) && x <= MaxTokId
    ensures Add(s, x).c1 == s.c1 + (if Route(s, x) == 1 then 1 else 0)
    ensures Add(s, x).c2 == s.c2 + (if Route(s, x) == 2 then 1 else 0)
  {
  }

  /** One addition grows segment `k` by the identifier exactly when it is routed there. */
  lemma SegmentGrows(s: BufferTokSet, x: TokId, k: nat)
    requires Valid(s) && x <= MaxTokId && 1 <= k <= 3
    ensures Segment(Add(s, x), k) == Segment(s, k) + (if Route(s, x) == k then [x] else [])
  {
    AddAppends(s, x);
    if Route(s, x) != k {
      assert Segment(s, k) + [] == Segment(s, k);
    }
  }

  /** Filing a history files its head, then the rest from the counters `d1`, `d2` that head moved to. */
  lemma FileHead(c1: nat, c2: nat, xs: seq<TokId>, k: nat, d1: nat, d2: nat)
    requires |xs| > 0 && 1 <= k <= 3
    requires d1 == c1 + (if Slot(c1, c2, xs[0]) == 1 then 1 else 0)
    requires d2 == c2 + (if Slot(c1, c2, xs[0]) == 2 then 1 else 0)
    ensures Part(File(c1, c2, xs), k)
            == (if Slot(c1, c2, xs[0]) == k then [xs[0]] else []) + Part(File(d1, d2, xs[1..]), k)
  {
  }

  /** Each segment of a multiset grows by exactly the group its history files there, in order. */
  lemma {:induction false} AddAllFiles(s: BufferTokSet, xs: seq<TokId>, k: nat)
    requires Valid(s) && 1 <= k <= 3
    requires forall i :: 0 <= i < |xs| ==> xs[i] <= MaxTokId
    ensures Segment(AddAll(s, xs), k) == Segment(s, k) + Part(File(s.c1, s.c2, xs), k)
    decreases |xs|
  {
    if |xs| > 0 {
      var x, rest := xs[0], xs[1..];
      var s' := Add(s, x);
      var here := if Route(s, x) == k then [x] else [];
      AddAllFiles(s', rest, k);
      assert AddAll(s, xs) == AddAll(s', rest);
      SegmentGrows(s, x, k);
      AddCounters(s, x);
      FileHead(s.c1, s.c2, xs, k, s'.c1, s'.c2);
      Regroup(Segment(AddAll(s', rest), k), Segment(s', k), Segment(s, k), here, Part(File(s'.c1, s'.c2, rest), k));
    }
  }

  /** While the counters have room, filing is grouping by size class. */
  lemma {:induction false} FileByClass(c1: nat, c2: nat, xs: seq<TokId>)
    requires c1 + |OfClass(xs, 1)| <= 0xFFFF && c2 + |OfClass(xs, 2)| <= 0xFFFF
    ensures File(c1, c2, xs) == Filing(OfClass(xs, 1), OfClass(xs, 2), OfClass(xs, 3))
    decreases |xs|
  {
    if |xs| > 0 {
      var x := xs[0];
      FileByClass(c1 + |Only(x, 1)|, c2 + |Only(x, 2)|, xs[1..]);
    }
  }

  /**
   Built from an empty multiset, for any history: the contents are the
   three filed groups in turn, each in insertion order.
   */
  lemma FiledElements(e: BufferTokSet, xs: seq<TokId>)
    requires Valid(e) && Length(e) == 0
    requires forall k :: 0 <= k < |xs| ==> xs[k] <= MaxTokId
    ensures var f := File(0, 0, xs);
            Elements(AddAll(e, xs)) == f.s1 + f.s2 + f.s3
  {
    var s := AddAll(e, xs);
    var f := File(0, 0, xs);
    SegmentSizes(e);
    assert Segment(e, 1) == [] && Segment(e, 2) == [] && Segment(e, 3) == [];
    AddAllFiles(e, xs, 1);
    AddAllFiles(e, xs, 2);
    AddAllFiles(e, xs, 3);
    assert Seg1(s) == f.s1 by {
      assert [] + f.s1 == f.s1;
    }
    assert Seg2(s) == f.s2 by {
      assert [] + f.s2 == f.s2;
    }
    assert Seg3(s) == f.s3 by {
      assert [] + f.s3 == f.s3;
    }
  }

  /** Round trip for any history: index `i` reads back the `i`-th of the filed groups in turn. */
  lemma FiledReadBack(e: BufferTokSet, xs: seq<TokId>, i: nat)
    requires Valid(e) && Length(e) == 0
    requires forall k :: 0 <= k < |xs| ==> xs[k] <= MaxTokId
    requires i < |xs|
    ensures Length(AddAll(e, xs)) == |xs|
    ensures var f := File(0, 0, xs);
            Get(AddAll(e, xs), i) == (f.s1 + f.s2 + f.s3)[i]
  {
    AddAllLength(e, xs);
    FiledElements(e, xs);
  }

  /**
   With the one-byte counter full, small identifiers spill into the
   two-byte segment after any two-byte ones already added.
   */
  lemma SpillScenario(s: BufferTokSet, xs: seq<TokId>)
    requires Valid(s) && s.c1 == 0xFFFF && s.c2 == 0
    requires xs == [0x100, 1]
    ensures Seg1(AddAll(s, xs)) == Seg1(s)
    ensures Seg2(AddAll(s, xs)) == [0x100, 1]
    ensures Seg3(AddAll(s, xs)) == Seg3(s)
  {
    var f := File(s.c1, s.c2, xs);
    assert f == Filing([], [0x100, 1], []);
    SegmentSizes(s);
    AddAllFiles(s, xs, 1);
    AddAllFiles(s, xs, 2);
    AddAllFiles(s, xs, 3);
    assert Seg2(s) == [];
  }

  // ---------------------------------------------------------------------------
  // The source's test scenarios

  function Repeat(n: nat, x: TokId): (r: seq<TokId>)
    ensures |r| == n && forall i :: 0 <= i < n ==> r[i] == x
  {
    seq(n, _ => x)
  }

  lemma {:induction false} OfClassAppend(xs: seq<TokId>, ys: seq<TokId>, k: nat)
    ensures OfClass(xs + ys, k) == OfClass(xs, k) + OfClass(ys, k)
    decreases |xs|
  {
    if |xs| > 0 {
      assert (xs + ys)[1..] == xs[1..] + ys;
      OfClassAppend(xs[1..], ys, k);
    } else {
      assert xs + ys == ys;
    }
  }

  lemma {:induction false} OfClassRepeat(n: nat, x: TokId, k: nat)
    ensures OfClass(Repeat(n, x), k) == if Class(x) == k then Repeat(n, x) else []
    decreases n
  {
    if n > 0 {
      assert Repeat(n, x)[1..] == Repeat(n - 1, x);
      OfClassRepeat(n - 1, x, k);
      if Class(x) == k {
        assert Repeat(n, x) == [x] + Repeat(n - 1, x);
      }
    }
  }

  /** The size classes of a thousand two-byte identifiers followed by a thousand one-byte ones. */
  lemma OverflowClasses(xs: seq<TokId>)
    requires xs == Repeat(1000, 0x100) + Repeat(1000, 1)
    ensures OfClass(xs, 1) == Repeat(1000, 1)
    ensures OfClass(xs, 2) == Repeat(1000, 0x100)
    ensures OfClass(xs, 3) == []
  {
    var a, b := Repeat(1000, 0x100), Repeat(1000, 1);
    assert OfClass(xs, 1) == Repeat(1000, 1) by {
      OfClassAppend(a, b, 1);
      OfClassRepeat(1000, 0x100, 1);
      OfClassRepeat(1000, 1, 1);
      assert [] + b == b;
    }
    assert OfClass(xs, 2) == Repeat(1000, 0x100) by {
      OfClassAppend(a, b, 2);
      OfClassRepeat(1000, 0x100, 2);
      OfClassRepeat(1000, 1, 2);
      assert a + [] == a;
    }
    assert OfClass(xs, 3) == [] by {
      OfClassAppend(a, b, 3);
      OfClassRepeat(1000, 0x100, 3);
      OfClassRepeat(1000, 1, 3);
      assert OfClass(a, 3) + OfClass(b, 3) == [];
    }
  }

  /**
   A thousand two-byte identifiers followed by a thousand one-byte ones:
   the count is two thousand, and reading back (`Get` returns element
   `i`) yields the thousand one-byte entries first.
   */
  lemma OverflowScenario(e: BufferTokSet, xs: seq<TokId>)
    requires Valid(e) && Length(e) == 0
    requires xs == Repeat(1000, 0x100) + Repeat(1000, 1)
    ensures Length(AddAll(e, xs)) == 2000
    ensures Elements(AddAll(e, xs)) == Repeat(1000, 1) + Repeat(1000, 0x100)
  {
    OverflowClasses(xs);
    AddAllLength(e, xs);
    BuiltElements(e, xs);
    assert Repeat(1000, 1) + Repeat(1000, 0x100) + [] == Repeat(1000, 1) + Repeat(1000, 0x100);
  }

  /** The size classes of the mixed scenario's identifiers, in read-back order. */
  lemma MixedClasses(xs: seq<TokId>)
    requires xs == [0xFFFFF, 1, 0x100, 42]
    ensures OfClass(xs, 1) + OfClass(xs, 2) + OfClass(xs, 3) == [1, 42, 0x100, 0xFFFFF]
    ensures |OfClass(xs, 1)| == 2 && |OfClass(xs, 2)| == 1
  {
    var t1, t2, t3 := xs[1..], xs[2..], xs[3..];
    assert t1[1..] == t2 && t2[1..] == t3 && t3[1..] == [];
    assert Class(0xFFFFF) == 3 && Class(1) == 1 && Class(0x100) == 2 && Class(42) == 1;
    forall k | 1 <= k <= 3
      ensures OfClass(xs, k) == Only(0xFFFFF, k) + Only(1, k) + Only(0x100, k) + Only(42, k)
    {
      assert OfClass(t3, k) == Only(42, k) + [];
      assert OfClass(t2, k) == Only(0x100, k) + OfClass(t3, k);
      assert OfClass(t1, k) == Only(1, k) + OfClass(t2, k);
    }
    assert OfClass(xs, 1) == [1, 42];
    assert OfClass(xs, 2) == [0x100];
    assert OfClass(xs, 3) == [0xFFFFF];
  }

  /** Identifiers of all three sizes added out of order are read back grouped by size. */
  lemma MixedSizesScenario(e: BufferTokSet, xs: seq<TokId>)
    requires Valid(e) && Length(e) == 0
    requires xs == [0xFFFFF, 1, 0x100, 42]
    ensures Length(AddAll(e, xs)) == 4
    ensures Get(AddAll(e, xs), 0) == 1 && Get(AddAll(e, xs), 1) == 42
    ensures Get(AddAll(e, xs), 2) == 0x100 && Get(AddAll(e, xs), 3) == 0xFFFFF
  {
    MixedClasses(xs);
    AddAllLength(e, xs);
    BuiltElements(e, xs);
  }

  /** Identifiers of one size class are all filed under that class, in order. */
  lemma {:induction false} OfClassUniform(xs: seq<TokId>, c: nat, k: nat)
    requires forall i :: 0 <= i < |xs| ==> Class(xs[i]) == c
    ensures OfClass(xs, k) == if k == c then xs else []
    decreases |xs|
  {
    if |xs| > 0 {
      assert forall i :: 0 <= i < |xs| - 1 ==> xs[1..][i] == xs[i + 1];
      OfClassUniform(xs[1..], c, k);
      if k == c {
        assert xs == [xs[0]] + xs[1..];
      }
    }
  }

  /** One-byte identifiers, fewer than 65535 of them, are read back exactly in insertion order. */
  lemma SmallInOrder(e: BufferTokSet, xs: seq<TokId>)
    requires Valid(e) && Length(e) == 0
    requires forall i :: 0 <= i < |xs| ==> xs[i] <= 0xFF
    requires |xs| <= 0xFFFF
    ensures Elements(AddAll(e, xs)) == xs
  {
    OfClassUniform(xs, 1, 1);
    OfClassUniform(xs, 1, 2);
    OfClassUniform(xs, 1, 3);
    BuiltElements(e, xs);
    assert xs + [] + [] == xs;
  }

  /** The small-values scenario: three one-byte identifiers read back in order. */
  lemma SmallValuesScenario(e: BufferTokSet, xs: seq<TokId>)
    requires Valid(e) && Length(e) == 0
    requires xs == [2, 7, 42]
    ensures Length(AddAll(e, xs)) == 3
    ensures Get(AddAll(e, xs), 0) == 2 && Get(AddAll(e, xs), 1) == 7 && Get(AddAll(e, xs), 2) == 42
  {
    SmallInOrder(e, xs);
  }
}
