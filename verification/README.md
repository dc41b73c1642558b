# Markov-chain text generator: a Dafny model of `src/markov.rs`

This project models the engine of `fake`, a text generator. The engine learns
a word-level Markov chain from lines of text and then generates new lines. It
has four parts.

- **`BufferTokSet`** is a multiset of token identifiers packed into one byte
  buffer with three segments:
  - 1-byte entries, counted by `c1`;
  - 2-byte little-endian entries, counted by `c2`;
  - 3-byte little-endian entries, which fill the rest of the buffer.

  `add` picks the segment from the identifier's size and from whether that
  segment's counter is full. `get` decodes a logical index. `length` counts
  the entries, and `choose` draws one entry.
- **`Dict`** is the interning table. Every distinct token (a word, or `None`
  for the sentinel) gets a dense identifier in first-seen order. `entry` maps
  an identifier back to its token.
- **`Chain::feed`** pads a line to `[none, none, t1, ..., tn, none]`. For
  every window `(a, b, c)` of three neighbours it records:
  - `c` under the prefix `(a, b)` in the forward index;
  - `a` under `(c, b)` in the reverse index;
  - `b` under `a` in the entry index.
- **Generation:**
  - random walks through the forward or reverse index (`generate_from_prefix`);
  - unseeded generation (`generate_one`);
  - seeded generation grown in both directions from one word (`generate_one_from`);
  - the best of fifty attempts by closeness to a target length
    (`choose_best`, `generate_best`, `generate_best_from`).

Everything is pure. The byte buffer is a `seq<u8>` with its two counters. The
indexes are `map`s from prefixes to packed multisets. The random numbers are
parameters: a draw picks the entry at `draw % length`, so every entry is
reachable. A walk stops when its list of numbers runs out, which bounds a loop
whose termination the source leaves to chance.

Modules, in dependency order:

| file | module | contents |
|---|---|---|
| `types.dfy` | `Types` | machine widths, `TokId`, `Option` |
| `token_set.dfy` | `TokenSet` | `BufferTokSet`, its decoders, `add`, `get`, `length`, `choose` |
| `token_set_laws.dfy` | `TokenSetLaws` | repeated `add`: length, contents, read-back order, the source's test scenarios |
| `hash_tok_set.dfy` | `HashTokSet` | the count-map multiset and its agreement with `BufferTokSet` |
| `dictionary.dfy` | `Dictionary` | `Dict`, `tokid`, `entry` |
| `text.dfy` | `Text` | `split_whitespace` as used by `feed_str`, and `vec_to_string` |
| `chain.dfy` | `MarkovChain` | `Chain`, `new`, `feed`, `feed_str` |
| `chain_laws.dfy` | `ChainLaws` | what `feed` adds to each index, key by key, and the entry/forward link |
| `generation.dfy` | `Generation` | walks, `generate_one`, `generate_one_from`, `choose_best`, the best-of wrappers |

A few facts about the code that shape the model:
- `feed` pads a line as `[none, none, t1, ..., tn, none]` and cuts it into
  windows of three identifiers `(a, b, c)`.
- The forward index is keyed by `(a, b)` and stores `c`. The reverse index is
  keyed by `(c, b)` and stores `a`. The entry index is keyed by `a` and
  stores `b`.
- Both best-of wrappers make fifty attempts, the first plus 49 more.
- `generate_one_from` interns the seed with `tokid`, so an unseen seed is added
  to the table. It is not a read-only lookup.

## Model

| member | source | states |
|---|---|---|
| TokenSet.Decode2Append | src/markov.rs:72-78 | Appending one little-endian byte pair to a whole number of pairs appends exactly that pair's value to the decoded segment. |
| TokenSet.Decode3Append | src/markov.rs:80-87 | Appending one little-endian byte triple to a whole number of triples appends exactly that triple's value to the decoded segment. |
| TokenSet.SegmentSizes | src/markov.rs:57-63 | The buffer length is `c1 + 2*c2 + 3*(number of 3-byte entries)`, and the first two segments hold `c1` and `c2` entries. |
| TokenSet.New | src/markov.rs:50-56 | A new multiset is well formed and holds no entry. |
| TokenSet.Length | src/markov.rs:57-63 | The count computed from the counters and the buffer length is the number of decoded entries. |
| TokenSet.EmptyIffNoBytes | src/markov.rs:57-63 | The length is zero exactly when the buffer is empty. |
| TokenSet.Get | src/markov.rs:64-88 | `get(i)` is entry `i` of "segment 1, then segment 2, then segment 3", and fits in three bytes. |
| TokenSet.Add1Segments | src/markov.rs:89-93 | `add1` appends the low byte to segment 1 and leaves segments 2 and 3 unchanged. |
| TokenSet.Add2Grows | src/markov.rs:94-103 | `add2` appends the low 16 bits to segment 2 and leaves segments 1 and 3 unchanged. |
| TokenSet.Add3Grows | src/markov.rs:104-111 | `add3` appends the low 24 bits to segment 3 and leaves segments 1 and 2 unchanged. |
| TokenSet.AddAppends | src/markov.rs:112-123 | `add` appends the identifier unchanged to the segment chosen by its size and by counter fullness (1 byte while `c1 < 0xFFFF`, else 2 bytes while `c2 < 0xFFFF`, else 3 bytes). The other two segments are unchanged. |
| TokenSet.AddLength | src/markov.rs:112-123 | One `add` raises `length()` by exactly one. |
| TokenSet.AddContent | src/markov.rs:112-123 | One `add` adds exactly one occurrence of the identifier to the multiset. |
| TokenSet.Choose | src/markov.rs:182-185 | A draw from a non-empty multiset returns one of its entries, within three bytes. |
| TokenSet.ChooseReaches | src/markov.rs:182-185 | Every position `n < length()` is drawn by some random number, namely `n` itself. |
| TokenSetLaws.AddAllLength | src/markov.rs:57-63 | After `k` adds the length has grown by `k`. |
| TokenSetLaws.AddAllContent | src/markov.rs:178-180 | After adding a sequence, the multiset has grown by exactly the sequence's multiset. |
| TokenSetLaws.AddOne | src/markov.rs:112-123 | While neither counter overflows, one `add` puts the identifier at the end of the segment of its size class. |
| TokenSetLaws.AddOneCounters | src/markov.rs:112-123 | While neither counter overflows, one `add` raises only the counter of the identifier's size class. |
| TokenSetLaws.AddAllSegments | src/markov.rs:89-123 | While the counters have room, each segment grows by the added identifiers of its size class, in insertion order. |
| TokenSetLaws.BuiltElements | src/markov.rs:64-88 | While at most 65535 one-byte and 65535 two-byte identifiers are added, a multiset built from empty reads back as the 1-byte identifiers, then the 2-byte ones, then the 3-byte ones, each group in insertion order. |
| TokenSetLaws.ReadBack | src/markov.rs:64-88 | Under the same counter bound, `get(i)` on a multiset built from empty is element `i` of the added identifiers grouped by size, and `length()` is the number added. |
| TokenSetLaws.AddCounters | src/markov.rs:112-123 | One `add` moves the counter of the segment it stores into, and only that one. |
| TokenSetLaws.SegmentGrows | src/markov.rs:112-123 | One `add` appends the identifier to the segment it is routed to and to no other. |
| TokenSetLaws.FileHead | src/markov.rs:112-123 | Filing a history puts its first identifier where `add` would route it, then files the rest from the moved counters. |
| TokenSetLaws.AddAllFiles | src/markov.rs:89-123 | For any history, full counters included, each segment grows by exactly the identifiers filed to it, in insertion order. |
| TokenSetLaws.FileByClass | src/markov.rs:112-123 | While the counters have room, the filing is the grouping by size class. |
| TokenSetLaws.FiledElements | src/markov.rs:64-123 | For any history, a multiset built from empty reads back as the three filed groups in turn. |
| TokenSetLaws.FiledReadBack | src/markov.rs:64-123 | Round trip for any history: `get(i)` is element `i` of the filed groups in turn, and `length()` is the number added. |
| TokenSetLaws.SpillScenario | src/markov.rs:112-123 | With the one-byte counter at 65535 and no two-byte entry, adding 0x100 then 1 leaves segment 2 as `[0x100, 1]`: the small identifier spills after the larger one. |
| TokenSetLaws.ChooseReturnsInserted | src/markov.rs:182-185 | A draw from a multiset built from empty always returns one of the added identifiers. |
| TokenSetLaws.SmallInOrder | src/markov.rs:89-93 | Up to 65535 one-byte identifiers read back exactly in insertion order. |
| TokenSetLaws.SmallValuesScenario | src/markov.rs:130-139 | Adding 2, 7, 42 gives length 3 and reads them back in that order. |
| TokenSetLaws.MixedSizesScenario | src/markov.rs:141-153 | Adding 0xFFFFF, 1, 0x100, 42 gives length 4 and reads back 1, 42, 0x100, 0xFFFFF. |
| TokenSetLaws.OverflowScenario | src/markov.rs:155-170 | Adding a thousand 0x100 and then a thousand 1 gives length 2000 and reads back the thousand 1 first, then the thousand 0x100. |
| HashTokSet.AddEntry | src/markov.rs:31-33 | `add_entry` on the count map adds the key. A new key counts 1, and a known count goes up by one, wrapping at 16 bits as a release build does. Every other key keeps its count. |
| HashTokSet.AddAllCounts | src/markov.rs:31-33 | While no count reaches 65535, each count is the identifier's multiplicity among the added ones. |
| HashTokSet.AgreesWithBuffer | src/markov.rs:26-40 | Fed the same identifiers from empty, the count map and the packed multiset agree on every multiplicity below 65535. |
| HashTokSet.CountWraps | src/markov.rs:31-33 | In a release build, adding one identifier `n` times leaves its count at `n mod 65536`. |
| Dictionary.Distinct | src/markov.rs:202-211 | No token is listed under two identifiers. |
| Dictionary.New | src/markov.rs:195-200 | A new table is consistent and empty. |
| Dictionary.EntryInverse | src/markov.rs:202-215 | `entry` answers exactly for identifiers that `tokid` has handed out, and interning the token it returns gives the same identifier back, with the table unchanged. |
| Dictionary.Tokid | src/markov.rs:202-211 | A known token keeps its identifier and leaves the table unchanged. A new token gets identifier `entries.len()` and is appended. Afterwards `entry(tokid(t)) == Some(t)`. |
| Dictionary.TokidIdempotent | src/markov.rs:202-211 | Interning the same token twice gives the same identifier and the same table. |
| Dictionary.TokidOfEntry | src/markov.rs:202-215 | Interning the token behind any handed-out identifier returns that identifier and changes nothing. |
| Dictionary.ExtendsEntry | src/markov.rs:207-209 | Interning never changes the token behind an existing identifier. |
| Dictionary.SentinelIsZero | src/markov.rs:261-263 | In a fresh table the sentinel `None` gets identifier 0. |
| Dictionary.InternAll | src/markov.rs:289-291 | Interning a line in order gives one identifier per token, each standing for its token, and only extends the table. |
| Text.Split | src/markov.rs:311-318 | A line starting with a non-whitespace character yields at least one word. |
| Text.SplitWords | src/markov.rs:311-318 | `split_whitespace` never yields an empty word or a word containing whitespace. |
| Text.SplitVisible | src/markov.rs:311-318 | The words glued together are exactly the line's non-whitespace characters. |
| Text.SplitEmpty | src/markov.rs:311-318 | A line yields no words exactly when it is all whitespace. |
| Text.SpacedIsJoin | src/markov.rs:331-338 | Each word followed by one space is the single-space join plus one trailing space, which `truncate` removes. |
| Text.VecToString | src/markov.rs:329-340 | `vec_to_string` is the single-space join, and `""` for no words. Its length is the total word length plus one per gap. |
| Text.JoinLength | src/markov.rs:329-340 | The joined text has the words' characters plus exactly `n - 1` spaces. |
| Text.SplitJoin | src/markov.rs:311-318 | Round trip: splitting the single-space join of words gives the words back. |
| MarkovChain.NewForwardAsWritten | src/markov.rs:261-275 | As written, `new` stores one key `(none, none)` in the forward index, holding an empty multiset. |
| MarkovChain.NewChain | src/markov.rs:261-275 | The corrected fresh chain has the sentinel at identifier 0, empty indexes and the chain invariant. |
| MarkovChain.AsWrittenFirstWindow | src/markov.rs:261-275 | Adding a line's first window `(none, none, t1)` to the forward index `new` builds gives the same map as adding it to the corrected empty index. |
| MarkovChain.ExistingContent | src/markov.rs:296 | `or_insert_with(new)` yields the stored multiset, or an empty one for a missing key. |
| MarkovChain.AddAt | src/markov.rs:296-297 | Adding under a key makes that key present and leaves every other key's multiset unchanged. |
| MarkovChain.AddAtStored | src/markov.rs:296-305 | Adding `x` under `k` adds one occurrence of `x` to `k`'s multiset and nothing to any other key. |
| MarkovChain.ApplyWindow | src/markov.rs:294-306 | One window `(a, b, c)` adds the keys `(a, b)` forward, `(c, b)` reverse and `a` to the entry index. It leaves the table alone. |
| MarkovChain.Windows | src/markov.rs:293 | `windows(3)` yields `n - 2` windows, and window `i` holds positions `i`, `i+1`, `i+2`. |
| MarkovChain.RecordKeys | src/markov.rs:303-305 | Recording adds exactly the windows' first identifiers to the keys of the entry index. |
| MarkovChain.InternLine | src/markov.rs:289-291 | The sentinel and then the words are interned, each identifier standing for its token. |
| MarkovChain.Padded | src/markov.rs:290-292 | The padded line is `[none, none, t1, ..., tn, none]`. |
| MarkovChain.LineWindows | src/markov.rs:289-293 | A line's windows are the 3-windows of its padded identifiers. All of them were handed out by the extended table. |
| MarkovChain.Feed | src/markov.rs:285-309 | An empty line leaves the chain unchanged. Feeding keeps the chain invariant and only extends the table. |
| MarkovChain.RecordKeeps | src/markov.rs:303-305 | Recording windows of known identifiers keeps every entry-index key a handed-out identifier. |
| MarkovChain.FeedStr | src/markov.rs:311-318 | `feed_str` keeps the invariant, and a blank line leaves the chain unchanged. |
| ChainLaws.RecordForward | src/markov.rs:295-297 | Recording adds to `forward[k]` exactly the third identifiers of the windows whose prefix is `k`. |
| ChainLaws.RecordReverse | src/markov.rs:299-301 | Recording adds to `reverse[k]` exactly the first identifiers of the windows whose `(c, b)` is `k`. |
| ChainLaws.RecordEntries | src/markov.rs:303-305 | Recording adds to `entries[a]` exactly the second identifiers of the windows starting with `a`. |
| ChainLaws.PaddedWindows | src/markov.rs:290-293 | `n >= 1` words give exactly `n + 1` windows. The first reads `(none, none)`, window `i` ends with word `i`, the last ends with `none`, and neighbours overlap in two identifiers. |
| ChainLaws.FeedWindows | src/markov.rs:289-293 | `feed` records the windows of the padded interned line, and the interned identifiers stand for the sentinel and the words. |
| ChainLaws.FeedForward | src/markov.rs:285-309 | Feeding a line adds one occurrence of `c` to `forward[(a, b)]` per window `(a, b, c)`, and nothing else. |
| ChainLaws.FeedReverse | src/markov.rs:285-309 | Feeding a line adds one occurrence of `a` to `reverse[(c, b)]` per window `(a, b, c)`, and nothing else. |
| ChainLaws.FeedEntries | src/markov.rs:285-309 | Feeding a line adds one occurrence of `b` to `entries[a]` per window `(a, b, c)`, and nothing else. |
| ChainLaws.StoredIffKey | src/markov.rs:296-305 | An index holds a key exactly when it stores something under it, so no stored multiset is empty. |
| ChainLaws.SuccessorHasFollowers | src/markov.rs:293-305 | Every `(a, b)` recorded in the entry index is also the prefix of a window, so it gains a follower. |
| ChainLaws.NewChainLinked | src/markov.rs:261-275 | In the fresh chain every entry successor `b` of `a` is a forward key `(a, b)`, vacuously. |
| ChainLaws.FeedLinked | src/markov.rs:285-309 | Feeding keeps that link: every entry successor `b` of `a` is a forward key `(a, b)`. |
| Generation.Draw | src/markov.rs:182-185 | A draw from a stored multiset returns one of its entries. |
| Generation.Steps | src/markov.rs:361-369 | The walk draws at most one identifier per random number. |
| Generation.StepsFollow | src/markov.rs:363-369 | Each identifier of a walk is stored under the two identifiers before it. |
| Generation.StepsStop | src/markov.rs:363-369 | A walk that ends before its numbers run out ends at a context that is not a key, which is the loop's exit condition. |
| Generation.WordOf | src/markov.rs:353-359 | An identifier contributes its word when it stands for one, and nothing for the sentinel or an unknown identifier. |
| Generation.WordsOf | src/markov.rs:366-368 | Every word produced from identifiers is a word of the table. |
| Generation.GenerateFromPrefix | src/markov.rs:342-372 | A prefix that is not a key gives no words. Otherwise the result has at most two prefix words plus one per step, all words of the table. |
| Generation.GenerateOne | src/markov.rs:374-378 | `generate_one` always returns a text. |
| Generation.GenerateOneKnown | src/markov.rs:374-378 | The unseeded text is the join of words of the table. |
| Generation.SentinelLookup | src/markov.rs:374-375 | Looking up the sentinel in a fed chain gives identifier 0 and leaves the table alone. |
| Generation.Reversed | src/markov.rs:389 | `reverse` puts word `i` at position `n - 1 - i`. |
| Generation.Pop | src/markov.rs:390-391 | `pop` drops the last word: the rest followed by that word is the list. An empty list stays empty, and only words of the list remain. |
| Generation.ReversedHas | src/markov.rs:389 | Reversing keeps exactly the same words. |
| Generation.GenerateOneFrom | src/markov.rs:380-397 | Seeded generation changes only the table, by interning the seed. It returns `None` exactly when the seed's identifier is not an entry-index key. |
| Generation.UnseenSeed | src/markov.rs:380-397 | A seed never fed gives `None`, yet ends up interned. |
| Generation.SeedInternedOnce | src/markov.rs:381 | After one seeded attempt, further attempts leave the chain unchanged. |
| Generation.SeededWordsKnown | src/markov.rs:384-393 | Every word of the seeded word list is a word of the table. |
| Generation.SeededTextKnown | src/markov.rs:380-397 | Whenever seeded generation returns a text, it is the join of words of the table, which now holds the seed. |
| Generation.SeedAppears | src/markov.rs:380-393 | In a linked chain, whenever seeded generation returns a text, it is the join of a word list that contains the seed and holds only words of the table. |
| Generation.SeedLeads | src/markov.rs:384-393 | When the seed's context is a forward key, the seed is among the words of the seeded text. |
| Generation.Candidates | src/markov.rs:400-402 | `filter_map` keeps only produced texts, and is empty exactly when every attempt gave `None`. |
| Generation.CandidatesComplete | src/markov.rs:400-402 | Every produced text is a candidate. |
| Generation.BestIndex | src/markov.rs:403-408 | Picks the first position at the least sort key. |
| Generation.DistExact | src/markov.rs:403 | While the length and `len - target` fit in an `i32`, the sort key is the true distance, the absolute value of `len - target`. |
| Generation.DistWraps | src/markov.rs:403 | With target -2^31 the release-build keys wrap: "a" gets 2^31 - 1 and "bb" gets 2^31 - 2, so `choose_best` returns "bb". |
| Generation.ChooseBest | src/markov.rs:399-409 | `None` exactly when all attempts are `None`. Otherwise it returns one of the attempts, and no produced text has a smaller `i32` sort key. |
| Generation.ChooseBestFirst | src/markov.rs:403-407 | The chosen text is the first candidate at the least sort key, which is where the stable sort puts it. |
| Generation.GenerateBest | src/markov.rs:422-431 | `generate_best` returns one of the fifty attempts, and none of them has a smaller sort key. |
| Generation.GenerateBestKnown | src/markov.rs:422-431 | The best unseeded text is the join of words of the table. |
| Generation.SeededAttemptsAt | src/markov.rs:415 | Seeded attempt `i` is seeded generation with the `i`-th random numbers. |
| Generation.MoreAttempts | src/markov.rs:415 | Once the seed is interned, the 49 further attempts leave the chain unchanged and give the plain seeded attempts. |
| Generation.SameAttempt | src/markov.rs:381 | Interning the seed first changes no seeded attempt's result. |
| Generation.SameAttempts | src/markov.rs:415 | Interning the seed first changes no attempt in a list of seeded attempts. |
| Generation.AllAttempts | src/markov.rs:411-420 | The first seeded attempt followed by the 49 threaded after it are the plain seeded attempts, and the chain stays as the first attempt left it. |
| Generation.GenerateBestFrom | src/markov.rs:411-420 | Only the seed is interned. The result is `None` exactly when the first attempt is. Otherwise it is one of the fifty seeded attempts, and none has a smaller sort key. |
| Generation.BestFromIsAttempt | src/markov.rs:411-420 | Whenever `generate_best_from` returns a text, the result is exactly what one of the fifty seeded attempts returns, chain included. |
| Generation.GenerateBestFromKnown | src/markov.rs:411-420 | Whenever `generate_best_from` returns a text, it is the join of words of the table, which now holds the seed. |
| Generation.UnseenSeedBest | src/markov.rs:411-420 | A seed never fed makes `generate_best_from` return `None`. |
| Generation.AsWrittenUnfedDrawsFromEmpty | src/markov.rs:261-275 | As written, the fresh chain's forward index holds the sentinel context with an empty multiset, so the first step of `generate_one` draws from nothing. |
| Generation.UnfedChainGeneratesEmpty | src/markov.rs:374-378 | With the corrected constructor, `generate_one` on a chain never fed gives the empty text. |
| Generation.UnfedChainBestIsEmpty | src/markov.rs:422-431 | With the corrected constructor, `generate_best` on a chain never fed gives the empty text. |

## Left out

- `src/main.rs` (command-line parsing, the stdin loop, the worker thread and the HTTP server) is I/O and concurrency and is not part of this model.
- `feed_file` is file reading. Its effect is `feed_str` once per line, which is modelled.
- `printsizes` is diagnostic printing.
- The random number generator and its distribution are not modelled: every draw takes a caller-supplied number.
- `HashTokSet` `choose` relies on the library's weighted choice and is not modelled. Only its counting `add_entry` is.
- The hashing and `Rc` sharing inside the maps are not modelled. Maps are mathematical maps.
- TokenSet.Choose: the draw is `number % length()`. This shows every entry is reachable (`ChooseReaches`) but says nothing about the uniform distribution of `gen_range`.
- Generation.GenerateFromPrefix: the walk stops when its random numbers run out, so the model covers walks up to that many steps. The source's loop has no bound and ends only by chance.
- Generation.Steps: a bounded walk, for the same reason.
- MarkovChain.Feed: requires that no identifier above 0xFFFFFF is handed out. The source panics in `add` at that point. The 32-bit `TokID` cast in `tokid` cannot wrap before that and is not modelled.
- TokenSet.Add: requires `entry <= 0xFFFFFF`, the source's panic case.
- Generation.ChooseBest: the length counts characters, while the source's `s.len()` counts UTF-8 bytes.
- Generation.ChooseBest: the sort key follows a release build, where `len as i32`, the subtraction and `abs` wrap in 32 bits (`DistWraps`). A debug build panics instead whenever `len - target` leaves the `i32` range, for example for any target at or below -2^31 + len.
- Generation.GenerateBest: ranks its attempts by `ChooseBest`'s key, so it shares both gaps. The length is counted in characters, not UTF-8 bytes, and the key wraps as in a release build where a debug build panics.
- Generation.GenerateBestFrom: ranks its attempts by `ChooseBest`'s key, so it shares both gaps. The length is counted in characters, not UTF-8 bytes, and the key wraps as in a release build where a debug build panics.
- Generation.ChooseBest: the stable sort is modelled by its outcome, the first candidate at the least sort key, not as a sort.
- Generation.SeedAppears: it holds only for linked chains, which every chain built by `NewChain` and `Feed` is (`NewChainLinked`, `FeedLinked`). The chain `Chain::new` builds as written is linked too, since its entry index is empty. It is left out of the chain type only because its forward index stores an empty multiset. Once a line is fed, its forward index is the corrected one (`AsWrittenFirstWindow`), see Findings.
- TokenSetLaws.BuiltElements: requires at most 65535 one-byte and 65535 two-byte identifiers. Past that the source spills them into a wider segment. `FiledElements` states the law for every history.
- TokenSetLaws.ReadBack: requires the same counter bound as `BuiltElements`. `FiledReadBack` states the round trip for every history.
- HashTokSet.AddEntry: follows a release build, where the 16-bit increment wraps at 65535. A debug build panics there instead.
- Text.Split: whitespace is the fixed set of Unicode `White_Space` characters, and the model works on characters, not UTF-8 bytes.

## Findings

| source | as written | input that shows it | evidently intended | confidence | as-written member | corrected member |
|---|---|---|---|---|---|---|
| src/markov.rs:261-275 | `Chain::new` stores an empty multiset under `(none, none)` in the forward index. `generate_one` then finds that key, and `choose` calls `gen_range(0, 0)` on it (src/markov.rs:363-364, 182-185). | `Chain::new()` followed by `generate_one()` or `generate_best(n)`, with no line fed | An unfed chain generates the empty text, like any chain whose sentinel context has no followers. Index keys only ever hold non-empty multisets. The corrected model gives `Some("")`. Answering `None` for an empty chain would be another reading, and it is not the one modelled. | not executed | MarkovChain.NewForwardAsWritten, Generation.AsWrittenUnfedDrawsFromEmpty | MarkovChain.NewChain, Generation.UnfedChainGeneratesEmpty, Generation.UnfedChainBestIsEmpty |
