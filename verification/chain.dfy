/**
 The chain of `src/markov.rs`: an interning table and three indexes of
 packed multisets, built by feeding lines of words.

 Each line of `n >= 1` words is padded to `[none, none, t1, ..., tn, none]`
 and every window `(a, b, c)` of three neighbouring identifiers records
 `c` after the prefix `(a, b)` (forward index), `a` before the key `(c, b)`
 (reverse index) and `b` after the single identifier `a` (entry index).
 */
module MarkovChain {
  import opened Types
  import opened Dictionary
  import TokenSet
  import Text

  type Prefix1 = TokId
  type Prefix2 = (TokId, TokId)
  /** A multiset as an index stores it: well formed and holding at least one occurrence. */
  type TokSet = s: TokenSet.BufferTokSet | TokenSet.Valid(s) && |s.buf| > 0
    witness TokenSet.Add(TokenSet.New(), 0)

  datatype Chain = Chain(
    dict: Dict,
    forward: map<Prefix2, TokSet>,
    reverse: map<Prefix2, TokSet>,
    entries: map<Prefix1, TokSet>)

  /** The sentinel `None` is interned at identifier 0 of a well-formed table. */
  ghost predicate SentinelFirst(d: Dict) {
    Dictionary.Valid(d) && |d.entries| > 0 && d.entries[0] == None
  }

  /** Every identifier used as a key of the entry index was handed out by the table. */
  ghost predicate KeysKnown(c: Chain) {
    forall a :: a in c.entries ==> a < |c.dict.entries|
  }

  /** The invariant every fed chain keeps. */
  ghost predicate Inv(c: Chain) {
    SentinelFirst(c.dict) && KeysKnown(c)
  }

  /**
   The forward index as `Chain::new` builds it: an EMPTY multiset stored
   under `(none, none)`, something the indexes of a `Chain` never hold.
   */
  function NewForwardAsWritten(none: TokId): (m: map<Prefix2, TokenSet.BufferTokSet>)
    ensures m.Keys == {(none, none)}
    ensures TokenSet.Valid(m[(none, none)]) && TokenSet.Length(m[(none, none)]) == 0
  {
    map[(none, none) := TokenSet.New()]
  }

  /** The corrected constructor: the sentinel interned and all three indexes empty. */
  function NewChain(): (c: Chain)
    ensures Inv(c)
    ensures c.dict.entries == [None]
    ensures c.forward == map[] && c.reverse == map[] && c.entries == map[]
  {
    var (d, none) := Tokid(Dictionary.New(), None);
    Chain(d, map[], map[], map[])
  }

  /**
   From the first window on, the as-written forward index and the corrected
   one agree: every fed line starts with the window `(none, none, t1)`, and
   adding `t1` to the empty multiset `Chain::new` stored gives the same map
   as adding it under a key that is missing.
   */
  lemma AsWrittenFirstWindow(none: TokId, x: TokId)
    requires x <= MaxTokId
    ensures var m := NewForwardAsWritten(none);
            m[(none, none) := TokenSet.Add(m[(none, none)], x)] == AddAt(map[], (none, none), x)
  {
  }

  /** The multiset stored under `k`, where a missing key stands for the empty multiset. */
  ghost function Stored<K>(m: map<K, TokSet>, k: K): multiset<TokId> {
    if k in m then TokenSet.Content(m[k]) else multiset{}
  }

  /** The multiset under `k`, or a new empty one when the key is missing (`or_insert_with(new)`). */
  function Existing<K>(m: map<K, TokSet>, k: K): (s: TokenSet.BufferTokSet)
    ensures TokenSet.Valid(s)
  {
    if k in m then m[k] else TokenSet.New()
  }

  lemma ExistingContent<K>(m: map<K, TokSet>, k: K)
    ensures TokenSet.Content(Existing(m, k)) == Stored(m, k)
  {
  }

  /**
   `entry(k).or_insert_with(new).add_entry(x)`: one more occurrence of `x`
   under `k`; every other key keeps its multiset.
   */
  function AddAt<K>(m: map<K, TokSet>, k: K, x: TokId): (r: map<K, TokSet>)
    requires x <= MaxTokId
    ensures r.Keys == m.Keys + {k}
    ensures forall j :: j in m && j != k ==> r[j] == m[j]
  {
    m[k := TokenSet.Add(Existing(m, k), x)]
  }

  /** The multiset under the updated key grows by `x`; the others are unchanged. */
  lemma AddAtStored<K>(m: map<K, TokSet>, k: K, x: TokId, j: K)
    requires x <= MaxTokId
    ensures Stored(AddAt(m, k, x), j) == Stored(m, j) + (if j == k then multiset{x} else multiset{})
  {
    if j == k {
      TokenSet.AddContent(Existing(m, k), x);
      ExistingContent(m, k);
    }
  }

  /** One window `(a, b, c)` of a padded line, every identifier small enough to store. */
  datatype Window = Window(a: TokId, b: TokId, c: TokId)

  ghost predicate Fitting(w: Window) {
    w.a <= MaxTokId && w.b <= MaxTokId && w.c <= MaxTokId
  }

  /** The three additions of one window. */
  function ApplyWindow(ch: Chain, w: Window): (r: Chain)
    requires Fitting(w)
    ensures r.dict == ch.dict
    ensures r.forward.Keys == ch.forward.Keys + {(w.a, w.b)}
    ensures r.reverse.Keys == ch.reverse.Keys + {(w.c, w.b)}
    ensures r.entries.Keys == ch.entries.Keys + {w.a}
  {
    ch.(forward := AddAt(ch.forward, (w.a, w.b), w.c),
        reverse := AddAt(ch.reverse, (w.c, w.b), w.a),
        entries := AddAt(ch.entries, w.a, w.b))
  }

  /** The windows of three neighbouring identifiers, left to right. */
  function Windows(toks: seq<TokId>): (ws: seq<Window>)
    ensures |ws| == if |toks| < 3 then 0 else |toks| - 2
    ensures forall i :: 0 <= i < |ws| ==> ws[i] == Window(toks[i], toks[i + 1], toks[i + 2])
    decreases |toks|
  {
    if |toks| < 3 then [] else [Window(toks[0], toks[1], toks[2])] + Windows(toks[1..])
  }

  /** Applies the windows in order, as the loop over `toks.windows(3)` does. */
  function Record(ch: Chain, ws: seq<Window>): (r: Chain)
    requires forall i :: 0 <= i < |ws| ==> Fitting(ws[i])
    ensures r.dict == ch.dict
    decreases |ws|
  {
    if |ws| == 0 then ch
    else
      assert Fitting(ws[0]);
      Record(ApplyWindow(ch, ws[0]), ws[1..])
  }

  /** The first identifiers of the windows: the keys they add to the entry index. */
  function Firsts(ws: seq<Window>): (r: set<TokId>)
    ensures forall i :: 0 <= i < |ws| ==> ws[i].a in r
    ensures forall a :: a in r ==> exists i :: 0 <= i < |ws| && ws[i].a == a
    decreases |ws|
  {
    if |ws| == 0 then {} else {ws[0].a} + Firsts(ws[1..])
  }

  /** Recording adds exactly the first identifiers of the windows to the keys of the entry index. */
  lemma {:induction false} RecordKeys(ch: Chain, ws: seq<Window>)
    requires forall i :: 0 <= i < |ws| ==> Fitting(ws[i])
    ensures Record(ch, ws).entries.Keys == ch.entries.Keys + Firsts(ws)
    decreases |ws|
  {
    if |ws| > 0 {
      RecordKeys(ApplyWindow(ch, ws[0]), ws[1..]);
    }
  }

  /** The words of a line as tokens. */
  function Words(tokens: seq<string>): (ts: seq<Token>)
    ensures |ts| == |tokens|
    ensures forall i :: 0 <= i < |ts| ==> ts[i] == Some(tokens[i])
  {
    seq(|tokens|, i requires 0 <= i < |tokens| => Some(tokens[i]))
  }

  /** The table after interning the sentinel and then the words of a line, in the source's order. */
  function InternLine(d: Dict, tokens: seq<string>): (r: (Dict, TokId, seq<TokId>))
    requires Dictionary.Valid(d)
    ensures Dictionary.Valid(r.0) && Extends(d, r.0)
    ensures Entry(r.0, r.1) == Some(None)
    ensures |r.2| == |tokens|
    ensures forall i :: 0 <= i < |tokens| ==> Entry(r.0, r.2[i]) == Some(Some(tokens[i]))
  {
    var (d1, none) := Tokid(d, None);
    var (d2, ids) := InternAll(d1, Words(tokens));
    ExtendsTransitive(d, d1, d2);
    ExtendsEntry(d1, d2, none);
    (d2, none, ids)
  }

  /**
   Feeding must not hand out an identifier the packed multisets cannot
   store; the source panics in `add` when it does.
   */
  ghost predicate Fits(d: Dict, tokens: seq<string>)
    requires Dictionary.Valid(d)
  {
    |InternLine(d, tokens).0.entries| <= MaxTokId + 1
  }

  /** The padded identifier list `[none, none, t1, ..., tn, none]`. */
  function Padded(none: TokId, ids: seq<TokId>): (toks: seq<TokId>)
    ensures |toks| == |ids| + 3
    ensures toks[0] == none && toks[1] == none && toks[|toks| - 1] == none
    ensures forall i :: 0 <= i < |ids| ==> toks[i + 2] == ids[i]
  {
    [none, none] + ids + [none]
  }

  /** Every identifier of a padded line was handed out by the table and is small enough to store. */
  lemma PaddedFits(d: Dict, toks: seq<TokId>, ws: seq<Window>, i: nat)
    requires forall j :: 0 <= j < |toks| ==> Entry(d, toks[j]).Some?
    requires |d.entries| <= MaxTokId + 1
    requires ws == Windows(toks) && i < |ws|
    ensures Fitting(ws[i])
    ensures ws[i].a < |d.entries|
  {
    assert Entry(d, toks[i]).Some? && Entry(d, toks[i + 1]).Some? && Entry(d, toks[i + 2]).Some?;
  }

  /** The identifiers of the padded line after interning, and its windows. */
  function LineWindows(d: Dict, tokens: seq<string>): (r: (Dict, seq<TokId>, seq<Window>))
    requires Dictionary.Valid(d) && Fits(d, tokens)
    ensures Dictionary.Valid(r.0) && Extends(d, r.0)
    ensures r.1 == Padded(InternLine(d, tokens).1, InternLine(d, tokens).2)
    ensures r.2 == Windows(r.1)
    ensures forall i :: 0 <= i < |r.2| ==> Fitting(r.2[i]) && r.2[i].a < |r.0.entries|
  {
    var (d2, none, ids) := InternLine(d, tokens);
    var toks := Padded(none, ids);
    var ws := Windows(toks);
    forall j | 0 <= j < |toks|
      ensures Entry(d2, toks[j]).Some?
    {
      if j >= 2 && j - 2 < |ids| {
        assert toks[j] == ids[j - 2];
      }
    }
    forall i | 0 <= i < |ws|
      ensures Fitting(ws[i]) && ws[i].a < |d2.entries|
    {
      PaddedFits(d2, toks, ws, i);
    }
    (d2, toks, ws)
  }

  /**
   `feed`: an empty line changes nothing. Otherwise the sentinel and the
   words are interned, and the `n + 1` windows of the padded line are
   recorded in order.
   */
  function Feed(ch: Chain, tokens: seq<string>): (r: Chain)
    requires Inv(ch) && Fits(ch.dict, tokens)
    ensures Inv(r)
    ensures |tokens| == 0 ==> r == ch
    ensures Extends(ch.dict, r.dict)
  {
    if |tokens| == 0 then ch
    else
      var (d, toks, ws) := LineWindows(ch.dict, tokens);
      RecordKeeps(ch, d, ws);
      Record(ch.(dict := d), ws)
  }

  /** Recording windows whose identifiers the extended table knows keeps the invariant. */
  lemma RecordKeeps(ch: Chain, d: Dict, ws: seq<Window>)
    requires Inv(ch) && Dictionary.Valid(d) && Extends(ch.dict, d)
    requires forall i :: 0 <= i < |ws| ==> Fitting(ws[i]) && ws[i].a < |d.entries|
    ensures Inv(Record(ch.(dict := d), ws))
  {
    ExtendsEntry(ch.dict, d, 0);
    var r := Record(ch.(dict := d), ws);
    RecordKeys(ch.(dict := d), ws);
    forall a | a in r.entries
      ensures a < |r.dict.entries|
    {
      if a in ch.entries {
        assert a < |ch.dict.entries|;
      } else {
        assert a in Firsts(ws);
        var i :| 0 <= i < |ws| && ws[i].a == a;
      }
    }
  }

  /** `feed_str`: feeds the whitespace-separated words of one line; a blank line changes nothing. */
  function FeedStr(ch: Chain, line: string): (r: Chain)
    requires Inv(ch) && Fits(ch.dict, Text.Split(line))
    ensures Inv(r)
    ensures (forall i :: 0 <= i < |line| ==> Text.IsWhitespace(line[i])) ==> r == ch
  {
    Text.SplitEmpty(line);
    Feed(ch, Text.Split(line))
  }
}
