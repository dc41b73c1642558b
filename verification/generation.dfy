/**
 Text generation over a fed chain: random walks through the forward or
 reverse index, seeded generation that grows a text in both directions
 from one word, and picking the attempt closest to a target length.

 Randomness is a parameter: every draw from a multiset takes the next
 number of a caller-supplied sequence, and a walk stops when the numbers
 run out, which bounds walks that the source leaves to chance.
 */
module Generation {
  import opened Types
  import opened Dictionary
  import TokenSet
  import Text
  import opened MarkovChain
  import ChainLaws

  datatype Direction = Forward | Reverse

  /** The index a walk in direction `dir` follows. */
  function Index(ch: Chain, dir: Direction): map<Prefix2, TokSet> {
    match dir
    case Forward => ch.forward
    case Reverse => ch.reverse
  }

  /** `choose`: a weighted draw from a stored multiset, which is never empty. */
  function Draw(t: TokSet, draw: nat): (id: TokId)
    ensures id in TokenSet.Content(t)
  {
    TokenSet.EmptyIffNoBytes(t);
    TokenSet.Choose(t, draw)
  }

  /**
   The identifiers drawn by the loop of `generate_from_prefix`: while the
   context is a key, draw a successor and shift it into the context.
   */
  function Steps(m: map<Prefix2, TokSet>, curs: Prefix2, draws: seq<nat>): (cs: seq<TokId>)
    ensures |cs| <= |draws|
    decreases |draws|
  {
    if curs !in m || |draws| == 0 then []
    else
      var c := Draw(m[curs], draws[0]);
      [c] + Steps(m, (curs.1, c), draws[1..])
  }

  /** A walk through `m` from context `(a, b)`: each identifier is stored under the two before it. */
  ghost predicate Follows(m: map<Prefix2, TokSet>, a: TokId, b: TokId, cs: seq<TokId>)
    decreases |cs|
  {
    |cs| == 0 || ((a, b) in m && cs[0] in TokenSet.Content(m[(a, b)]) && Follows(m, b, cs[0], cs[1..]))
  }

  /** The context after walking `cs` from `curs`. */
  function Last(curs: Prefix2, cs: seq<TokId>): Prefix2 {
    if |cs| == 0 then curs
    else if |cs| == 1 then (curs.1, cs[0])
    else (cs[|cs| - 2], cs[|cs| - 1])
  }

  /** The drawn identifiers form a walk: each is stored under the two before it. */
  lemma {:induction false} StepsFollow(m: map<Prefix2, TokSet>, curs: Prefix2, draws: seq<nat>)
    ensures Follows(m, curs.0, curs.1, Steps(m, curs, draws))
    decreases |draws|
  {
    if curs in m && |draws| > 0 {
      var c := Draw(m[curs], draws[0]);
      var rest := Steps(m, (curs.1, c), draws[1..]);
      StepsFollow(m, (curs.1, c), draws[1..]);
      assert ([c] + rest)[1..] == rest;
    }
  }

  /** The walk ends before the numbers run out only at a context that is not a key: the loop condition of the source. */
  lemma {:induction false} StepsStop(m: map<Prefix2, TokSet>, curs: Prefix2, draws: seq<nat>)
    ensures |Steps(m, curs, draws)| < |draws| ==> Last(curs, Steps(m, curs, draws)) !in m
    decreases |draws|
  {
    if curs in m && |draws| > 0 {
      var c := Draw(m[curs], draws[0]);
      var rest := Steps(m, (curs.1, c), draws[1..]);
      assert Steps(m, curs, draws) == [c] + rest;
      StepsStop(m, (curs.1, c), draws[1..]);
      LastCons(curs, c, rest);
    }
  }

  /** The context after `[c] + rest` is the context after `rest`, starting from `(curs.1, c)`. */
  lemma LastCons(curs: Prefix2, c: TokId, rest: seq<TokId>)
    ensures Last(curs, [c] + rest) == Last((curs.1, c), rest)
  {
  }

  /** The word an identifier stands for, or nothing for the sentinel and unknown identifiers. */
  function WordOf(d: Dict, id: TokId): (ws: seq<string>)
    ensures |ws| <= 1
    ensures |ws| == 1 <==> Entry(d, id).Some? && Entry(d, id).value.Some?
    ensures |ws| == 1 ==> d.entries[id] == Some(ws[0])
  {
    match Entry(d, id)
    case Some(Some(w)) => [w]
    case _ => []
  }

  /** The words of a list of identifiers, skipping the sentinel. */
  function WordsOf(d: Dict, ids: seq<TokId>): (ws: seq<string>)
    ensures |ws| <= |ids|
    ensures forall w :: w in ws ==> Some(w) in d.entries
    decreases |ids|
  {
    if |ids| == 0 then [] else WordOf(d, ids[0]) + WordsOf(d, ids[1..])
  }

  /**
   `generate_from_prefix`: nothing when the prefix is not a key; otherwise
   the words of the prefix followed by the words of the walk from it.
   Every word produced is a word of the table.
   */
  function GenerateFromPrefix(ch: Chain, dir: Direction, prefix: Prefix2, draws: seq<nat>): (ws: seq<string>)
    ensures prefix !in Index(ch, dir) ==> ws == []
    ensures |ws| <= |draws| + 2
    ensures forall w :: w in ws ==> Some(w) in ch.dict.entries
  {
    var m := Index(ch, dir);
    if prefix !in m then []
    else WordOf(ch.dict, prefix.0) + WordOf(ch.dict, prefix.1) + WordsOf(ch.dict, Steps(m, prefix, draws))
  }

  /**
   `generate_one`: the forward walk from the sentinel context, joined.
   Always `Some`; the sentinel lookup does not change a chain whose
   sentinel is interned.
   */
  function GenerateOne(ch: Chain, draws: seq<nat>): (r: Option<string>)
    requires SentinelFirst(ch.dict)
    ensures r.Some?
  {
    var (d, none) := Tokid(ch.dict, None);
    Some(Text.Join(GenerateFromPrefix(ch.(dict := d), Forward, (none, none), draws)))
  }

  /** Interning the sentinel in a fed chain finds identifier 0 and leaves the table as it was. */
  lemma SentinelLookup(ch: Chain)
    requires SentinelFirst(ch.dict)
    ensures Tokid(ch.dict, None) == (ch.dict, Sentinel)
  {
    TokidOfEntry(ch.dict, 0);
  }

  /** An unseeded text is made only of words of the table. */
  lemma GenerateOneKnown(ch: Chain, draws: seq<nat>)
    requires SentinelFirst(ch.dict)
    ensures exists ws :: (forall w :: w in ws ==> Some(w) in ch.dict.entries)
                         && GenerateOne(ch, draws) == Some(Text.Join(ws))
  {
    SentinelLookup(ch);
    var ws := GenerateFromPrefix(ch, Forward, (Sentinel, Sentinel), draws);
    assert GenerateOne(ch, draws) == Some(Text.Join(ws));
  }

  /** The random numbers of one seeded attempt: the successor draw and the two walks. */
  datatype SeedDraws = SeedDraws(next: nat, forward: seq<nat>, reverse: seq<nat>)

  /** Reverses a list of words. */
  function Reversed(ws: seq<string>): (r: seq<string>)
    ensures |r| == |ws|
    ensures forall i :: 0 <= i < |ws| ==> r[i] == ws[|ws| - 1 - i]
    decreases |ws|
  {
    if |ws| == 0 then [] else Reversed(ws[1..]) + [ws[0]]
  }

  /** Reversing keeps exactly the same words. */
  lemma ReversedHas(ws: seq<string>, w: string)
    ensures w in Reversed(ws) <==> w in ws
  {
    var r := Reversed(ws);
    if w in ws {
      var i :| 0 <= i < |ws| && ws[i] == w;
      assert r[|ws| - 1 - i] == w;
    }
    if w in r {
      var i :| 0 <= i < |r| && r[i] == w;
      assert ws[|ws| - 1 - i] == w;
    }
  }

  /** `Vec::pop`, keeping the rest: drops the last word, if any. */
  function Pop(ws: seq<string>): (r: seq<string>)
    ensures |ws| > 0 ==> r + [ws[|ws| - 1]] == ws
    ensures |ws| == 0 ==> r == []
    ensures forall w :: w in r ==> w in ws
  {
    if |ws| == 0 then [] else ws[..|ws| - 1]
  }

  /**
   The words of a seeded text: the reverse walk from `(next, s)` turned
   around with its two prefix words popped, then the forward walk from
   `(s, next)`.
   */
  function SeededWords(ch: Chain, s: TokId, next: TokId, r: SeedDraws): seq<string> {
    var fwd := GenerateFromPrefix(ch, Forward, (s, next), r.forward);
    var rev := GenerateFromPrefix(ch, Reverse, (next, s), r.reverse);
    Pop(Pop(Reversed(rev))) + fwd
  }

  /**
   `generate_one_from`: interns the seed (an unseen seed gets a new
   identifier), and answers `None` exactly when the seed has no recorded
   successor. Only the table can change.
   */
  function GenerateOneFrom(ch: Chain, start: string, r: SeedDraws): (res: (Chain, Option<string>))
    requires Dictionary.Valid(ch.dict)
    ensures res.0 == ch.(dict := Tokid(ch.dict, Some(start)).0)
    ensures res.1.None? <==> Tokid(ch.dict, Some(start)).1 !in ch.entries
  {
    var (d, s) := Tokid(ch.dict, Some(start));
    var ch1 := ch.(dict := d);
    if s !in ch.entries then (ch1, None)
    else
      var next := Draw(ch.entries[s], r.next);
      (ch1, Some(Text.Join(SeededWords(ch1, s, next, r))))
  }

  /** A seed never fed to the chain gives `None`, although it is now interned. */
  lemma UnseenSeed(ch: Chain, start: string, r: SeedDraws)
    requires Inv(ch) && Some(start) !in ch.dict.entries
    ensures GenerateOneFrom(ch, start, r).1 == None
    ensures Some(start) in GenerateOneFrom(ch, start, r).0.dict.entries
  {
  }

  /** After the first attempt the seed is interned, so further attempts leave the chain unchanged. */
  lemma SeedInternedOnce(ch: Chain, start: string, r: SeedDraws, r2: SeedDraws)
    requires Dictionary.Valid(ch.dict)
    ensures var ch1 := GenerateOneFrom(ch, start, r).0;
            GenerateOneFrom(ch1, start, r2).0 == ch1
  {
    TokidIdempotent(ch.dict, Some(start));
  }

  /** Every word of a seeded text is a word of the table. */
  lemma SeededWordsKnown(ch: Chain, s: TokId, next: TokId, r: SeedDraws)
    ensures forall w :: w in SeededWords(ch, s, next, r) ==> Some(w) in ch.dict.entries
  {
    var fwd := GenerateFromPrefix(ch, Forward, (s, next), r.forward);
    var rev := GenerateFromPrefix(ch, Reverse, (next, s), r.reverse);
    forall w | w in Pop(Pop(Reversed(rev)))
      ensures Some(w) in ch.dict.entries
    {
      ReversedHas(rev, w);
    }
  }

  /** A seeded text is made only of words of the table, which now holds the seed. */
  lemma SeededTextKnown(ch: Chain, start: string, r: SeedDraws)
    requires Dictionary.Valid(ch.dict)
    ensures GenerateOneFrom(ch, start, r).1.Some? ==>
              exists ws :: (forall w :: w in ws ==> Some(w) in GenerateOneFrom(ch, start, r).0.dict.entries)
                           && GenerateOneFrom(ch, start, r).1 == Some(Text.Join(ws))
  {
    if GenerateOneFrom(ch, start, r).1.Some? {
      var (d, s) := Tokid(ch.dict, Some(start));
      var ch1 := ch.(dict := d);
      var next := Draw(ch.entries[s], r.next);
      SeededWordsKnown(ch1, s, next, r);
      assert GenerateOneFrom(ch, start, r).1 == Some(Text.Join(SeededWords(ch1, s, next, r)));
    }
  }

  /**
   In a linked chain a seeded text is made of words of the table and holds
   the seed: the forward walk starts at the seed's context, whose first
   word is the seed.
   */
  lemma SeedAppears(ch: Chain, start: string, r: SeedDraws)
    requires Inv(ch) && ChainLaws.Linked(ch)
    ensures GenerateOneFrom(ch, start, r).1.Some? ==>
              exists ws :: && start in ws
                           && (forall w :: w in ws ==> Some(w) in GenerateOneFrom(ch, start, r).0.dict.entries)
                           && GenerateOneFrom(ch, start, r).1 == Some(Text.Join(ws))
  {
    if GenerateOneFrom(ch, start, r).1.Some? {
      var (d, s) := Tokid(ch.dict, Some(start));
      var ch1 := ch.(dict := d);
      var next := Draw(ch.entries[s], r.next);
      assert next in Stored(ch.entries, s);
      SeedLeads(ch1, start, s, next, r);
      SeededWordsKnown(ch1, s, next, r);
      assert GenerateOneFrom(ch, start, r).1 == Some(Text.Join(SeededWords(ch1, s, next, r)));
    }
  }

  /** When the seed's context is a forward key, the seed is a word of the seeded text. */
  lemma SeedLeads(ch: Chain, start: string, s: TokId, next: TokId, r: SeedDraws)
    requires (s, next) in ch.forward && Entry(ch.dict, s) == Some(Some(start))
    ensures start in SeededWords(ch, s, next, r)
  {
    var fwd := GenerateFromPrefix(ch, Forward, (s, next), r.forward);
    assert WordOf(ch.dict, s) == [start];
    assert fwd[0] == start;
    var rev := GenerateFromPrefix(ch, Reverse, (next, s), r.reverse);
    var before := Pop(Pop(Reversed(rev)));
    assert (before + fwd)[|before|] == start;
  }

  /**
   The sort key of a text: `((len as i32) - target).abs()` as a release
   build computes it. The cast, the subtraction and `abs` all wrap in 32
   bits, so a difference of exactly -2^31 keeps the key -2^31.
   */
  function Dist(s: string, target: i32): (n: i32) {
    var d := Wrap32(Wrap32(|s|) - target);
    if d == I32Min then d else if d < 0 then -d else d
  }

  /** While the length and the difference fit in an `i32`, the key is the true distance `|len - target|`. */
  lemma DistExact(s: string, target: i32)
    requires |s| < 0x8000_0000 && I32Min < |s| - target < 0x8000_0000
    ensures Dist(s, target) == if |s| >= target then |s| - target else target - |s|
    ensures Dist(s, target) >= 0
  {
  }

  /**
   With the least `i32` as target, the wrapped keys rank a longer text
   closer: "a" gets 2^31 - 1 and "bb" gets 2^31 - 2, so `choose_best` picks
   "bb" though "a" is nearer the target.
   */
  lemma DistWraps(gens: seq<Option<string>>)
    requires gens == [Some("a"), Some("bb")]
    ensures Dist("a", I32Min) == 0x7FFF_FFFF && Dist("bb", I32Min) == 0x7FFF_FFFE
    ensures ChooseBest(gens, I32Min) == Some("bb")
  {
    assert Candidates(gens) == ["a", "bb"] by {
      assert gens[1..] == [Some("bb")];
      assert gens[1..][1..] == [];
    }
    assert ["a", "bb"][..1] == ["a"];
  }

  /** No text any attempt produced has a smaller key than `s`. */
  ghost predicate Closest(s: string, gens: seq<Option<string>>, target: i32) {
    forall i :: 0 <= i < |gens| && gens[i].Some? ==> Dist(s, target) <= Dist(gens[i].value, target)
  }

  /** `filter_map(|o| o)`: the texts of the attempts that produced one, in order. */
  function Candidates(gens: seq<Option<string>>): (cs: seq<string>)
    ensures |cs| == 0 <==> forall i :: 0 <= i < |gens| ==> gens[i].None?
    ensures forall j :: 0 <= j < |cs| ==> Some(cs[j]) in gens
    decreases |gens|
  {
    if |gens| == 0 then []
    else
      var rest := Candidates(gens[1..]);
      assert forall i :: 1 <= i < |gens| ==> gens[i] == gens[1..][i - 1];
      match gens[0]
      case Some(s) => [s] + rest
      case None => rest
  }

  /** The position of the first text at the least sort key. */
  function BestIndex(cs: seq<string>, target: i32): (k: nat)
    requires |cs| > 0
    ensures k < |cs|
    ensures forall i :: 0 <= i < |cs| ==> Dist(cs[k], target) <= Dist(cs[i], target)
    ensures forall i :: 0 <= i < k ==> Dist(cs[i], target) > Dist(cs[k], target)
    decreases |cs|
  {
    if |cs| == 1 then 0
    else
      var k := BestIndex(cs[..|cs| - 1], target);
      if Dist(cs[|cs| - 1], target) < Dist(cs[k], target) then |cs| - 1 else k
  }

  /**
   `choose_best`: `None` exactly when no attempt produced a text;
   otherwise the first candidate, in attempt order, among those with the
   least key `Dist`. A stable sort by that key puts exactly that one first.
   */
  function ChooseBest(gens: seq<Option<string>>, target: i32): (r: Option<string>)
    ensures r.None? <==> forall i :: 0 <= i < |gens| ==> gens[i].None?
    ensures r.Some? ==> r in gens
    ensures r.Some? ==> Closest(r.value, gens, target)
  {
    var cs := Candidates(gens);
    if |cs| == 0 then None
    else
      var k := BestIndex(cs, target);
      assert forall i :: 0 <= i < |gens| && gens[i].Some? ==> gens[i].value in cs by {
        CandidatesComplete(gens);
      }
      Some(cs[k])
  }

  /** Every text an attempt produced is a candidate. */
  lemma {:induction false} CandidatesComplete(gens: seq<Option<string>>)
    ensures forall i :: 0 <= i < |gens| && gens[i].Some? ==> gens[i].value in Candidates(gens)
    decreases |gens|
  {
    if |gens| > 0 {
      CandidatesComplete(gens[1..]);
      assert forall i :: 1 <= i < |gens| ==> gens[i] == gens[1..][i - 1];
    }
  }

  /** The result of `choose_best` is the first candidate at the least sort key. */
  lemma ChooseBestFirst(gens: seq<Option<string>>, target: i32)
    requires ChooseBest(gens, target).Some?
    ensures exists k :: 0 <= k < |Candidates(gens)|
              && Candidates(gens)[k] == ChooseBest(gens, target).value
              && forall i :: 0 <= i < k ==> Dist(Candidates(gens)[i], target) > Dist(Candidates(gens)[k], target)
  {
    var k := BestIndex(Candidates(gens), target);
    assert Candidates(gens)[k] == ChooseBest(gens, target).value;
  }

  /** How many attempts the best-of wrappers make: the first and 49 more. */
  const Attempts: nat := 50

  /** `generate_best`: the best of fifty unseeded attempts. */
  function GenerateBest(ch: Chain, target: i32, draws: seq<seq<nat>>): (r: Option<string>)
    requires SentinelFirst(ch.dict) && |draws| == Attempts
    ensures r.Some?
    ensures exists i :: 0 <= i < Attempts && r == GenerateOne(ch, draws[i])
    ensures forall i :: 0 <= i < Attempts ==> Dist(r.value, target) <= Dist(GenerateOne(ch, draws[i]).value, target)
  {
    // The source returns `None` when the first attempt does; `generate_one` never does.
    var gens := UnseededAttempts(ch, draws);
    var r := ChooseBest(gens, target);
    assert r in gens;
    r
  }

  /** The best unseeded text is made only of words of the table. */
  lemma GenerateBestKnown(ch: Chain, target: i32, draws: seq<seq<nat>>)
    requires SentinelFirst(ch.dict) && |draws| == Attempts
    ensures exists ws :: (forall w :: w in ws ==> Some(w) in ch.dict.entries)
                         && GenerateBest(ch, target, draws) == Some(Text.Join(ws))
  {
    var i :| 0 <= i < Attempts && GenerateBest(ch, target, draws) == GenerateOne(ch, draws[i]);
    GenerateOneKnown(ch, draws[i]);
  }

  /** The unseeded attempts, one per list of random numbers, in order. */
  function UnseededAttempts(ch: Chain, draws: seq<seq<nat>>): (gens: seq<Option<string>>)
    requires SentinelFirst(ch.dict)
    ensures |gens| == |draws|
    ensures forall i :: 0 <= i < |draws| ==> gens[i] == GenerateOne(ch, draws[i])
  {
    seq(|draws|, i requires 0 <= i < |draws| => GenerateOne(ch, draws[i]))
  }

  /** What seeded attempts with these random numbers give, each made on the chain as it is. */
  function SeededAttempts(ch: Chain, start: string, draws: seq<SeedDraws>): (gens: seq<Option<string>>)
    requires Dictionary.Valid(ch.dict)
    ensures |gens| == |draws|
    decreases |draws|
  {
    if |draws| == 0 then []
    else [GenerateOneFrom(ch, start, draws[0]).1] + SeededAttempts(ch, start, draws[1..])
  }

  /** Attempt `i` is the seeded generation with the `i`-th random numbers. */
  lemma {:induction false} SeededAttemptsAt(ch: Chain, start: string, draws: seq<SeedDraws>, i: nat)
    requires Dictionary.Valid(ch.dict) && i < |draws|
    ensures SeededAttempts(ch, start, draws)[i] == GenerateOneFrom(ch, start, draws[i]).1
    decreases i
  {
    if i > 0 {
      SeededAttemptsAt(ch, start, draws[1..], i - 1);
    }
  }

  /**
   The seeded attempts after the first, threading the chain from one to the
   next. Once the seed is interned the chain stays as it is.
   */
  function MoreAttempts(ch: Chain, start: string, draws: seq<SeedDraws>): (r: (Chain, seq<Option<string>>))
    requires Dictionary.Valid(ch.dict)
    ensures |r.1| == |draws|
    ensures Some(start) in ch.dict.entries ==> r == (ch, SeededAttempts(ch, start, draws))
    decreases |draws|
  {
    if |draws| == 0 then (ch, [])
    else
      var (ch1, g) := GenerateOneFrom(ch, start, draws[0]);
      var (ch2, gs) := MoreAttempts(ch1, start, draws[1..]);
      (ch2, [g] + gs)
  }

  /** After the first seeded attempt, every later one gives what it would have given first. */
  lemma SameAttempt(ch: Chain, start: string, r: SeedDraws, r2: SeedDraws)
    requires Dictionary.Valid(ch.dict)
    ensures var ch1 := GenerateOneFrom(ch, start, r).0;
            && Some(start) in ch1.dict.entries
            && GenerateOneFrom(ch1, start, r2).1 == GenerateOneFrom(ch, start, r2).1
  {
    TokidIdempotent(ch.dict, Some(start));
  }

  /** Interning the seed first does not change what the attempts give. */
  lemma {:induction false} SameAttempts(ch: Chain, start: string, r: SeedDraws, draws: seq<SeedDraws>)
    requires Dictionary.Valid(ch.dict)
    ensures SeededAttempts(GenerateOneFrom(ch, start, r).0, start, draws) == SeededAttempts(ch, start, draws)
    decreases |draws|
  {
    if |draws| > 0 {
      SameAttempt(ch, start, r, draws[0]);
      SameAttempts(ch, start, r, draws[1..]);
    }
  }

  /**
   `generate_best_from`: `None` when the first seeded attempt is `None`;
   otherwise the best of the fifty seeded attempts. Only the table changes,
   by interning the seed once.
   */
  function GenerateBestFrom(ch: Chain, start: string, target: i32, draws: seq<SeedDraws>): (r: (Chain, Option<string>))
    requires Dictionary.Valid(ch.dict) && |draws| == Attempts
    ensures r.0 == ch.(dict := Tokid(ch.dict, Some(start)).0)
    ensures r.1.None? <==> GenerateOneFrom(ch, start, draws[0]).1.None?
    ensures r.1.Some? ==> r.1 in SeededAttempts(ch, start, draws)
    ensures r.1.Some? ==> Closest(r.1.value, SeededAttempts(ch, start, draws), target)
  {
    var (ch1, first) := GenerateOneFrom(ch, start, draws[0]);
    if first.None? then (ch1, None)
    else
      var (ch2, rest) := MoreAttempts(ch1, start, draws[1..]);
      AllAttempts(ch, start, draws);
      (ch2, ChooseBest([first] + rest, target))
  }

  /**
   The first seeded attempt and the 49 after it, threaded through the
   chain, are the plain seeded attempts, and leave the chain as the first
   one left it.
   */
  lemma AllAttempts(ch: Chain, start: string, draws: seq<SeedDraws>)
    requires Dictionary.Valid(ch.dict) && |draws| > 0
    ensures var (ch1, first) := GenerateOneFrom(ch, start, draws[0]);
            var more := MoreAttempts(ch1, start, draws[1..]);
            && more.0 == ch1
            && [first] + more.1 == SeededAttempts(ch, start, draws)
  {
    SameAttempt(ch, start, draws[0], draws[0]);
    SameAttempts(ch, start, draws[0], draws[1..]);
  }

  /** The position of a result among the attempts. */
  lemma AttemptOf(gens: seq<Option<string>>, g: Option<string>) returns (i: nat)
    requires g in gens
    ensures i < |gens| && gens[i] == g
  {
    i :| 0 <= i < |gens| && gens[i] == g;
  }

  /** A seeded best text is what one of the attempts gave, with the seed interned. */
  lemma BestFromIsAttempt(ch: Chain, start: string, target: i32, draws: seq<SeedDraws>) returns (i: nat)
    requires Dictionary.Valid(ch.dict) && |draws| == Attempts
    ensures i < Attempts
    ensures GenerateBestFrom(ch, start, target, draws).1.Some? ==>
              GenerateBestFrom(ch, start, target, draws) == GenerateOneFrom(ch, start, draws[i])
  {
    i := 0;
    var best := GenerateBestFrom(ch, start, target, draws);
    if best.1.Some? {
      i := AttemptOf(SeededAttempts(ch, start, draws), best.1);
      SeededAttemptsAt(ch, start, draws, i);
    }
  }

  /** The best seeded text is made only of words of the table, which now holds the seed. */
  lemma GenerateBestFromKnown(ch: Chain, start: string, target: i32, draws: seq<SeedDraws>)
    requires Dictionary.Valid(ch.dict) && |draws| == Attempts
    ensures GenerateBestFrom(ch, start, target, draws).1.Some? ==>
              exists ws :: (forall w :: w in ws ==> Some(w) in GenerateBestFrom(ch, start, target, draws).0.dict.entries)
                           && GenerateBestFrom(ch, start, target, draws).1 == Some(Text.Join(ws))
  {
    var i := BestFromIsAttempt(ch, start, target, draws);
    SeededTextKnown(ch, start, draws[i]);
  }

  /** A seed never fed to the chain makes `generate_best_from` answer `None`. */
  lemma UnseenSeedBest(ch: Chain, start: string, target: i32, draws: seq<SeedDraws>)
    requires Inv(ch) && Some(start) !in ch.dict.entries && |draws| == Attempts
    ensures GenerateBestFrom(ch, start, target, draws).1 == None
  {
    UnseenSeed(ch, start, draws[0]);
  }

  // ---------------------------------------------------------------------------
  // The fresh chain

  /**
   As written, `Chain::new` stores an empty multiset under the sentinel
   context, so the first loop step of `generate_one` on a chain that was
   never fed finds the key and draws from nothing: `gen_range(0, 0)`.
   */
  lemma AsWrittenUnfedDrawsFromEmpty()
    ensures var none := Tokid(Dictionary.New(), None).1;
            var m := NewForwardAsWritten(none);
            && (none, none) in m
            && TokenSet.Valid(m[(none, none)])
            && TokenSet.Length(m[(none, none)]) == 0
  {
  }

  /** With the corrected constructor, generating from a chain never fed gives the empty text. */
  lemma UnfedChainGeneratesEmpty(draws: seq<nat>)
    ensures GenerateOne(NewChain(), draws) == Some("")
  {
    SentinelLookup(NewChain());
  }

  /** With the corrected constructor, `generate_best` on a chain never fed gives the empty text. */
  lemma UnfedChainBestIsEmpty(target: i32, draws: seq<seq<nat>>)
    requires |draws| == Attempts
    ensures GenerateBest(NewChain(), target, draws) == Some("")
  {
    var ch := NewChain();
    var r := GenerateBest(ch, target, draws);
    var i :| 0 <= i < Attempts && r == GenerateOne(ch, draws[i]);
    UnfedChainGeneratesEmpty(draws[i]);
  }
}
