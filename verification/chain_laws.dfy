/**
 What feeding a line does to the three indexes, key by key, and the link
 between the entry index and the forward index that seeded generation
 relies on.
 */
module ChainLaws {
  import opened Types
  import opened Dictionary
  import TokenSet
  import opened MarkovChain

  /** The identifiers that follow the context `k` in the windows: what `forward[k]` gains. */
  ghost function Followers(ws: seq<Window>, k: Prefix2): multiset<TokId>
    decreases |ws|
  {
    if |ws| == 0 then multiset{}
    else (if (ws[0].a, ws[0].b) == k then multiset{ws[0].c} else multiset{}) + Followers(ws[1..], k)
  }

  /** The identifiers that precede the reversed context `k = (c, b)` in the windows: what `reverse[k]` gains. */
  ghost function Predecessors(ws: seq<Window>, k: Prefix2): multiset<TokId>
    decreases |ws|
  {
    if |ws| == 0 then multiset{}
    else (if (ws[0].c, ws[0].b) == k then multiset{ws[0].a} else multiset{}) + Predecessors(ws[1..], k)
  }

  /** The identifiers that come right after `a` in the windows: what `entries[a]` gains. */
  ghost function Successors(ws: seq<Window>, a: Prefix1): multiset<TokId>
    decreases |ws|
  {
    if |ws| == 0 then multiset{}
    else (if ws[0].a == a then multiset{ws[0].b} else multiset{}) + Successors(ws[1..], a)
  }

  /** Recording adds to `forward[k]` exactly the followers of `k`; every key is affected only by its own windows. */
  lemma {:induction false} RecordForward(ch: Chain, ws: seq<Window>, k: Prefix2)
    requires forall i :: 0 <= i < |ws| ==> Fitting(ws[i])
    ensures Stored(Record(ch, ws).forward, k) == Stored(ch.forward, k) + Followers(ws, k)
    decreases |ws|
  {
    if |ws| > 0 {
      var w := ws[0];
      RecordForward(ApplyWindow(ch, w), ws[1..], k);
      AddAtStored(ch.forward, (w.a, w.b), w.c, k);
    }
  }

  /** Recording adds to `reverse[k]` exactly the predecessors of `k`. */
  lemma {:induction false} RecordReverse(ch: Chain, ws: seq<Window>, k: Prefix2)
    requires forall i :: 0 <= i < |ws| ==> Fitting(ws[i])
    ensures Stored(Record(ch, ws).reverse, k) == Stored(ch.reverse, k) + Predecessors(ws, k)
    decreases |ws|
  {
    if |ws| > 0 {
      var w := ws[0];
      RecordReverse(ApplyWindow(ch, w), ws[1..], k);
      AddAtStored(ch.reverse, (w.c, w.b), w.a, k);
    }
  }

  /** Recording adds to `entries[a]` exactly the successors of `a`. */
  lemma {:induction false} RecordEntries(ch: Chain, ws: seq<Window>, a: Prefix1)
    requires forall i :: 0 <= i < |ws| ==> Fitting(ws[i])
    ensures Stored(Record(ch, ws).entries, a) == Stored(ch.entries, a) + Successors(ws, a)
    decreases |ws|
  {
    if |ws| > 0 {
      var w := ws[0];
      RecordEntries(ApplyWindow(ch, w), ws[1..], a);
      AddAtStored(ch.entries, w.a, w.b, a);
    }
  }

  /**
   A line of `n >= 1` words gives `n + 1` windows of
   `[none, none, t1, ..., tn, none]`: the first reads the sentinel context,
   window `i` ends with word `i`, the last ends with the sentinel, and
   neighbouring windows overlap in two identifiers.
   */
  lemma PaddedWindows(none: TokId, ids: seq<TokId>)
    requires |ids| > 0
    ensures |Windows(Padded(none, ids))| == |ids| + 1
    ensures Windows(Padded(none, ids))[0].a == none && Windows(Padded(none, ids))[0].b == none
    ensures forall i :: 0 <= i < |ids| ==> Windows(Padded(none, ids))[i].c == ids[i]
    ensures Windows(Padded(none, ids))[|ids|].c == none
    ensures forall i :: 0 < i <= |ids| ==>
              && Windows(Padded(none, ids))[i].a == Windows(Padded(none, ids))[i - 1].b
              && Windows(Padded(none, ids))[i].b == Windows(Padded(none, ids))[i - 1].c
  {
    var toks := Padded(none, ids);
    var ws := Windows(toks);
    assert ws[0] == Window(toks[0], toks[1], toks[2]);
    assert ws[|ids|] == Window(toks[|ids|], toks[|ids| + 1], toks[|ids| + 2]);
    forall i | 0 <= i < |ids|
      ensures ws[i].c == ids[i]
    {
      assert ws[i] == Window(toks[i], toks[i + 1], toks[i + 2]);
    }
    forall i | 0 < i <= |ids|
      ensures ws[i].a == ws[i - 1].b && ws[i].b == ws[i - 1].c
    {
      assert ws[i] == Window(toks[i], toks[i + 1], toks[i + 2]);
      assert ws[i - 1] == Window(toks[i - 1], toks[i], toks[i + 1]);
    }
  }

  /** `feed` records exactly the windows of the padded line, in identifiers the table now knows. */
  lemma FeedWindows(ch: Chain, tokens: seq<string>)
    requires Inv(ch) && Fits(ch.dict, tokens) && |tokens| > 0
    ensures var (d, none, ids) := InternLine(ch.dict, tokens);
            LineWindows(ch.dict, tokens).2 == Windows(Padded(none, ids))
    ensures var (d, none, ids) := InternLine(ch.dict, tokens);
            && Entry(d, none) == Some(None)
            && forall i :: 0 <= i < |tokens| ==> Entry(d, ids[i]) == Some(Some(tokens[i]))
  {
  }

  /** `feed` adds one occurrence of `c` to `forward[(a, b)]` for every window `(a, b, c)` of the padded line. */
  lemma FeedForward(ch: Chain, tokens: seq<string>, k: Prefix2)
    requires Inv(ch) && Fits(ch.dict, tokens) && |tokens| > 0
    ensures Stored(Feed(ch, tokens).forward, k) == Stored(ch.forward, k) + Followers(LineWindows(ch.dict, tokens).2, k)
  {
    var (d, toks, ws) := LineWindows(ch.dict, tokens);
    RecordForward(ch.(dict := d), ws, k);
  }

  /** `feed` adds one occurrence of `a` to `reverse[(c, b)]` for every window `(a, b, c)`. */
  lemma FeedReverse(ch: Chain, tokens: seq<string>, k: Prefix2)
    requires Inv(ch) && Fits(ch.dict, tokens) && |tokens| > 0
    ensures Stored(Feed(ch, tokens).reverse, k) == Stored(ch.reverse, k) + Predecessors(LineWindows(ch.dict, tokens).2, k)
  {
    var (d, toks, ws) := LineWindows(ch.dict, tokens);
    RecordReverse(ch.(dict := d), ws, k);
  }

  /** `feed` adds one occurrence of `b` to `entries[a]` for every window `(a, b, c)`. */
  lemma FeedEntries(ch: Chain, tokens: seq<string>, a: Prefix1)
    requires Inv(ch) && Fits(ch.dict, tokens) && |tokens| > 0
    ensures Stored(Feed(ch, tokens).entries, a) == Stored(ch.entries, a) + Successors(LineWindows(ch.dict, tokens).2, a)
  {
    var (d, toks, ws) := LineWindows(ch.dict, tokens);
    RecordEntries(ch.(dict := d), ws, a);
  }

  /** A key is present exactly when something is stored under it. */
  lemma StoredIffKey<K>(m: map<K, TokSet>, k: K)
    ensures k in m <==> Stored(m, k) != multiset{}
  {
    if k in m {
      TokenSet.EmptyIffNoBytes(m[k]);
      assert TokenSet.Elements(m[k])[0] in TokenSet.Content(m[k]);
    }
  }

  /** Every successor pair `(a, b)` of the windows is also the context of a window. */
  lemma {:induction false} SuccessorHasFollowers(ws: seq<Window>, a: Prefix1, b: TokId)
    requires b in Successors(ws, a)
    ensures Followers(ws, (a, b)) != multiset{}
    decreases |ws|
  {
    if ws[0].a == a && ws[0].b == b {
      assert ws[0].c in Followers(ws, (a, b));
    } else {
      SuccessorHasFollowers(ws[1..], a, b);
      assert Followers(ws[1..], (a, b)) <= Followers(ws, (a, b));
    }
  }

  /**
   Every successor recorded for `a` can start a forward walk: the context
   `(a, b)` has followers. Seeded generation draws `b` from `entries[a]`
   and then walks forward from `(a, b)`.
   */
  ghost predicate Linked(c: Chain) {
    forall a: Prefix1, b: TokId :: b in Stored(c.entries, a) ==> (a, b) in c.forward
  }

  /** The corrected fresh chain is linked, vacuously. */
  lemma NewChainLinked()
    ensures Linked(NewChain())
  {
  }

  /** Feeding a line keeps the entry index linked to the forward index. */
  lemma FeedLinked(ch: Chain, tokens: seq<string>)
    requires Inv(ch) && Fits(ch.dict, tokens) && Linked(ch)
    ensures Linked(Feed(ch, tokens))
  {
    forall a: Prefix1, b: TokId
      ensures b in Stored(Feed(ch, tokens).entries, a) ==> (a, b) in Feed(ch, tokens).forward
    {
      FeedLinkedAt(ch, tokens, a, b);
    }
  }

  /**
   The link for one pair after feeding: an old successor keeps its forward
   key, and a new one comes from a window that also adds the forward key.
   */
  lemma FeedLinkedAt(ch: Chain, tokens: seq<string>, a: Prefix1, b: TokId)
    requires Inv(ch) && Fits(ch.dict, tokens) && Linked(ch)
    ensures b in Stored(Feed(ch, tokens).entries, a) ==> (a, b) in Feed(ch, tokens).forward
  {
    if |tokens| == 0 || b !in Stored(Feed(ch, tokens).entries, a) {
      return;
    }
    var r := Feed(ch, tokens);
    var ws := LineWindows(ch.dict, tokens).2;
    FeedEntries(ch, tokens, a);
    FeedForward(ch, tokens, (a, b));
    StoredIffKey(r.forward, (a, b));
    if b in Stored(ch.entries, a) {
      StoredIffKey(ch.forward, (a, b));
    } else {
      SuccessorHasFollowers(ws, a, b);
    }
  }
}
