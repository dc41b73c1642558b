/**
 The alternative token multiset: a map from identifier to a 16-bit count.
 The chain itself uses the packed multiset; this one is kept alongside it
 with the same interface, and the two agree on what they store as long as
 no count wraps.
 */
module HashTokSet {
  import opened Types
  import TokenSet
  import TokenSetLaws

  /** How many times each identifier was added, modulo 2^16. */
  type Counts = map<TokId, u16>

  /** The count of `k`: zero when `k` was never added. */
  function Count(c: Counts, k: TokId): (n: nat)
    ensures n < 0x1_0000
    ensures k !in c ==> n == 0
  {
    if k in c then c[k] else 0
  }

  /**
   `add_entry`: a new identifier starts at 1, a known one is incremented in
   16 bits. At 65535 a release build wraps to 0, which is what this models;
   a debug build panics there instead. Nothing else changes.
   */
  function AddEntry(c: Counts, entry: TokId): (r: Counts)
    ensures r.Keys == c.Keys + {entry}
    ensures forall k :: k in c && k != entry ==> r[k] == c[k]
    ensures Count(c, entry) < 0xFFFF ==> Count(r, entry) == Count(c, entry) + 1
    ensures Count(c, entry) == 0xFFFF ==> Count(r, entry) == 0
  {
    if entry in c then c[entry := (c[entry] as int + 1) % 0x1_0000] else c[entry := 1]
  }

  /** Adds the identifiers one after the other. */
  function AddAll(c: Counts, xs: seq<TokId>): (r: Counts)
    ensures r.Keys == c.Keys + set i | 0 <= i < |xs| :: xs[i]
    decreases |xs|
  {
    if |xs| == 0 then c
    else
      var r := AddAll(AddEntry(c, xs[0]), xs[1..]);
      assert forall i :: 1 <= i < |xs| ==> xs[i] == xs[1..][i - 1];
      r
  }

  /**
   While no identifier is added 65535 times or more, every count is the
   identifier's multiplicity among the added ones.
   */
  lemma {:induction false} AddAllCounts(c: Counts, xs: seq<TokId>, k: TokId)
    requires Count(c, k) + multiset(xs)[k] < 0xFFFF
    ensures Count(AddAll(c, xs), k) == Count(c, k) + multiset(xs)[k]
    decreases |xs|
  {
    if |xs| > 0 {
      assert xs == [xs[0]] + xs[1..];
      assert multiset(xs) == multiset{xs[0]} + multiset(xs[1..]);
      var c' := AddEntry(c, xs[0]);
      if xs[0] == k {
        assert Count(c', k) == Count(c, k) + 1;
      } else {
        assert Count(c', k) == Count(c, k);
      }
      AddAllCounts(c', xs[1..], k);
    }
  }

  /**
   The two multisets agree: starting from empty and adding the same
   identifiers, each count of the map is the identifier's multiplicity in
   the packed multiset.
   */
  lemma AgreesWithBuffer(xs: seq<TokId>, k: TokId)
    requires forall i :: 0 <= i < |xs| ==> xs[i] <= MaxTokId
    requires multiset(xs)[k] < 0xFFFF
    ensures Count(AddAll(map[], xs), k) == TokenSet.Content(TokenSetLaws.AddAll(TokenSet.New(), xs))[k]
  {
    AddAllCounts(map[], xs, k);
    TokenSetLaws.AddAllContent(TokenSet.New(), xs);
  }

  /**
   Adding one identifier 65536 times wraps its count back to zero, though
   the identifier stays a key (in a release build; a debug build panics at
   the 65536th addition).
   */
  lemma {:induction false} CountWraps(c: Counts, k: TokId, n: nat)
    requires k !in c
    ensures Count(AddAll(c, TokenSetLaws.Repeat(n, k)), k) == n % 0x1_0000
    decreases n
  {
    if n > 0 {
      var xs := TokenSetLaws.Repeat(n - 1, k);
      assert TokenSetLaws.Repeat(n, k) == xs + [k];
      AddAllSnoc(c, xs, k);
      CountWraps(c, k, n - 1);
      WrapStep(n);
    }
  }

  /** Counting one more in 16 bits: the residue goes up by one, and 65535 goes to 0. */
  lemma WrapStep(n: nat)
    requires n > 0
    ensures var m := (n - 1) % 0x1_0000;
            n % 0x1_0000 == if m == 0xFFFF then 0 else m + 1
  {
    var q, m := (n - 1) / 0x1_0000, (n - 1) % 0x1_0000;
    assert n == q * 0x1_0000 + m + 1;
    if m == 0xFFFF {
      assert n == (q + 1) * 0x1_0000;
    }
  }

  /** Adding a sequence and then one more identifier is adding the longer sequence. */
  lemma {:induction false} AddAllSnoc(c: Counts, xs: seq<TokId>, x: TokId)
    ensures AddAll(c, xs + [x]) == AddEntry(AddAll(c, xs), x)
    decreases |xs|
  {
    if |xs| > 0 {
      assert (xs + [x])[1..] == xs[1..] + [x];
      AddAllSnoc(AddEntry(c, xs[0]), xs[1..], x);
    }
  }
}
