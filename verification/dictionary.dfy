/**
 The interning table `Dict` of `src/markov.rs`: every distinct token gets
 a dense identifier, handed out in first-seen order, and `entry` maps an
 identifier back to its token.
 */
module Dictionary {
  import opened Types

  /** A word, or `None` for the sentinel that pads every line. */
  type Token = Option<string>

  datatype Dict = Dict(tokenids: map<Token, TokId>, entries: seq<Token>)

  /**
   The forward map and the entry list are inverse to each other: the map
   holds exactly the listed tokens, each at its own position.
   */
  ghost predicate Valid(d: Dict) {
    && (forall t :: t in d.tokenids ==> d.tokenids[t] < |d.entries| && d.entries[d.tokenids[t]] == t)
    && (forall i :: 0 <= i < |d.entries| ==> d.entries[i] in d.tokenids && d.tokenids[d.entries[i]] == i)
  }

  /** `d2` keeps every identifier of `d`, possibly adding more after them. */
  ghost predicate Extends(d: Dict, d2: Dict) {
    |d.entries| <= |d2.entries| && d2.entries[..|d.entries|] == d.entries
  }

  /** No token is listed twice. */
  lemma Distinct(d: Dict, i: nat, j: nat)
    requires Valid(d) && i < |d.entries| && j < |d.entries| && i != j
    ensures d.entries[i] != d.entries[j]
  {
  }

  function New(): (d: Dict)
    ensures Valid(d) && |d.entries| == 0
  {
    Dict(map[], [])
  }

  /** Inverse lookup: the token of an identifier, or `None` when it was never handed out. */
  function Entry(d: Dict, id: TokId): (r: Option<Token>)
    ensures r.Some? <==> id < |d.entries|
    ensures r.Some? ==> r.value == d.entries[id]
  {
    if id < |d.entries| then Some(d.entries[id]) else None
  }

  /**
   The identifier of `t`, interning it when it is new. A known token keeps
   its identifier and leaves the table as it was; a new one gets the next
   identifier, the current number of entries, and is appended to the list.
   */
  function Tokid(d: Dict, t: Token): (r: (Dict, TokId))
    requires Valid(d)
    ensures Valid(r.0) && Extends(d, r.0)
    ensures Entry(r.0, r.1) == Some(t)
    ensures t in d.entries ==> r.0 == d && r.1 < |d.entries|
    ensures t !in d.entries ==> r.1 == |d.entries| && r.0.entries == d.entries + [t]
  {
    if t in d.tokenids then
      (d, d.tokenids[t])
    else
      var id := |d.entries|;
      var d2 := Dict(d.tokenids[t := id], d.entries + [t]);
      assert d2.entries[..|d.entries|] == d.entries;
      (d2, id)
  }

  /** Interning is idempotent: asking again gives the same identifier and changes nothing. */
  lemma TokidIdempotent(d: Dict, t: Token)
    requires Valid(d)
    ensures Tokid(Tokid(d, t).0, t) == Tokid(d, t)
  {
    var (d1, id) := Tokid(d, t);
    assert d1.entries[id] == t;
  }

  /** Round trip from the other side: every listed token is interned at its own position. */
  lemma TokidOfEntry(d: Dict, id: TokId)
    requires Valid(d) && id < |d.entries|
    ensures Tokid(d, d.entries[id]) == (d, id)
  {
  }

  /**
   `entry` inverts `tokid`: it answers exactly for the identifiers the table
   handed out, and interning the token it answers with gives the identifier
   back without changing the table.
   */
  lemma EntryInverse(d: Dict, id: TokId)
    requires Valid(d)
    ensures Entry(d, id).Some? <==> id in d.tokenids.Values
    ensures Entry(d, id).Some? ==> Tokid(d, Entry(d, id).value) == (d, id)
  {
    if id < |d.entries| {
      assert d.tokenids[d.entries[id]] == id;
    }
  }

  /** Interning never changes the token behind an identifier that already existed. */
  lemma ExtendsEntry(d: Dict, d2: Dict, id: TokId)
    requires Extends(d, d2) && id < |d.entries|
    ensures Entry(d2, id) == Entry(d, id)
  {
    assert d2.entries[..|d.entries|][id] == d2.entries[id];
  }

  lemma ExtendsTransitive(d1: Dict, d2: Dict, d3: Dict)
    requires Extends(d1, d2) && Extends(d2, d3)
    ensures Extends(d1, d3)
  {
    assert d3.entries[..|d1.entries|] == d3.entries[..|d2.entries|][..|d1.entries|];
  }

  /** In a fresh table the sentinel is interned first and gets identifier 0. */
  lemma SentinelIsZero()
    ensures Tokid(New(), None).1 == Sentinel
    ensures Tokid(New(), None).0.entries == [None]
  {
  }

  /**
   Interns a list of tokens in order, as the source does when it maps a
   padded line to identifiers. Each result identifier stands for its token.
   */
  function InternAll(d: Dict, ts: seq<Token>): (r: (Dict, seq<TokId>))
    requires Valid(d)
    ensures Valid(r.0) && Extends(d, r.0)
    ensures |r.1| == |ts|
    ensures forall i :: 0 <= i < |ts| ==> Entry(r.0, r.1[i]) == Some(ts[i])
    decreases |ts|
  {
    if |ts| == 0 then (d, [])
    else
      var (d1, id) := Tokid(d, ts[0]);
      var (d2, ids) := InternAll(d1, ts[1..]);
      ExtendsTransitive(d, d1, d2);
      ExtendsEntry(d1, d2, id);
      (d2, [id] + ids)
  }
}
