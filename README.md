# Spellcast word finder — a verified model of the search and scoring engine

The solver takes a grid of letter cells, some of them carrying a double/triple
letter (DL/TL) or double/triple word (DW/TW) multiplier. It lists the dictionary
words that can be spelled along paths of 8-adjacent, pairwise distinct cells,
scores each word, and returns them ranked by score and then by length. The
repository holds three overlapping variants of this engine, and each is
modelled here in the form its source takes.

- **wordFinder-fixed.ts** (`FixedScoring`, `FixedSearch`, `DictionaryTrie`). The
  dictionary is a prefix tree. The integer score has letter and word multipliers,
  a length bonus and a gem penalty. The depth-first search also tries up to four
  swap letters per cell within a gem and swap budget, and prunes on a score
  estimate. Start cells are ordered by priority, and the best entry per word is
  kept.
- **wordFinder.ts** (`PrefixSearch`), the variant the solver page calls. The
  search navigates by the set of dictionary prefixes and adds a long-prefix
  heuristic. A separate pass swaps only the start cell, on a copy-on-write grid.
  Real-valued length multipliers are followed by rounding.
- **wordFinder-new.ts** (`SetSearch`). The search runs over a dictionary set,
  keeps the first path found for each word, then filters duplicates and sorts.

The shared modules are:
- `Types`: the records of app/types/spellcast.ts.
- `GridModel`: cell access, JavaScript's `trim` blank test, adjacency, paths, the
  `visited` matrix as an `array2<bool>`, and letter swaps.
- `Scoring`: the two letter-value tables, the multiplier accumulation loop, and
  the real-valued length scaling.
- `Ranking`: the result comparator, the best-entry-per-word table as a class
  over a `map`, and the first-occurrence filter.

The imperative parts are methods over mutable state, each proved against
specification functions:
- the trie insertion loop, over a class whose node arena lives in `seq` fields;
- the accumulator loops;
- the backtracking searches, which toggle `visited` in an `array2<bool>`;
- the result table, a class with a `map` field;
- the found-word list, a class with a `seq` field;
- the driver loops.

Sorting and de-duplication are functions with their properties proved as lemmas.

Inputs the source takes from outside:
- The dictionary (`COMMON_WORDS`, which is not part of this model) is a
  parameter: a `seq<string>` for the trie, a `set<string>` otherwise.
- Each wall-clock deadline is a natural-number parameter: the number of start
  cells, or scanned cells, searched before time runs out.

Facts about the code that the model keeps as written:
- **Pruning bound.** The estimate at app/utils/wordFinder-fixed.ts:235-243 counts
  no further letter points or word factors. It can therefore fall below the best
  score a continuation reaches, and the search can skip words. No completeness
  property is claimed for the fixed search.
- **Gem penalty clamp.** The score is clamped at zero once, after the gem penalty
  is subtracted (app/utils/wordFinder-fixed.ts:104).
- **Gem cost in wordFinder.ts.** It is computed but never subtracted
  (app/utils/wordFinder.ts:61-63): the score of that variant does not depend on
  the swaps.
- **Swaps in wordFinder.ts.** Only the start cell is swapped, with at most one
  swap per entry. The limit there is `min(maxSwaps, availableGems div 5)`.
- **Cell letters.** Letters of either case are accepted, and each is upper-cased
  when it is used.

## Model

| member | source | states |
|---|---|---|
| DictionaryTrie.Trie.constructor | app/utils/wordFinder-fixed.ts:11-13 | a new `TrieNode` is a root without children that accepts no word |
| DictionaryTrie.Trie.GetChild | app/utils/wordFinder-fixed.ts:26-28 | `getChild` returns null exactly when the node has no edge for the letter; otherwise the child, whose spelling is the node's spelling plus that letter |
| DictionaryTrie.Trie.Insert | app/utils/wordFinder-fixed.ts:15-24 | after `insert(w)` the trie keeps its invariant; its words are the old words plus `w`; every existing edge survives; walking `w` from the root reaches a node marked as a word end |
| DictionaryTrie.Trie.AddChild | app/utils/wordFinder-fixed.ts:18-20 | `children.set(c, new TrieNode())` adds exactly one node, labelled with the parent's spelling plus `c`, and changes no word and no other label |
| DictionaryTrie.AppendChild | app/utils/wordFinder-fixed.ts:18-20 | adding a fresh child edge keeps every old edge, labels the new node with its parent's label plus the letter, and keeps every node reachable along its own label |
| DictionaryTrie.Trie.AcceptsIffWord | app/utils/wordFinder-fixed.ts:26-28 | following `getChild` along a string ends at an end-of-word node exactly when the string is one of the inserted words |
| DictionaryTrie.FollowExtends | app/utils/wordFinder-fixed.ts:15-24 | a walk that succeeds in the trie still reaches the same node after more insertions, so earlier words remain words |
| DictionaryTrie.FollowSpelling | app/utils/wordFinder-fixed.ts:26-28 | following the letters of `s` from a node ends at the node labelled by that node's spelling followed by `s` |
| FixedSearch.BuildTrie | app/utils/wordFinder-fixed.ts:36-44 | the trie built from the word list holds exactly the upper-cased words |
| Scoring.LetterScore | app/utils/wordFinder-fixed.ts:47-51 | `LETTER_SCORES[c] \|\| 1`: a key missing from the table scores 1, a listed one its table value; every value lies between 1 and 10 |
| Scoring.TableValuesInRange | app/utils/wordFinder.ts:11-15 | every entry of either letter table lies between 1 and 10 |
| Scoring.ApplyCellMultiplier | app/utils/wordFinder-fixed.ts:75-90 | the multiplier `switch`: DL and TL scale the letter value by 2 and 3, DW and TW the word factor, and a plain cell changes neither |
| Scoring.SumAlongPath | app/utils/wordFinder-fixed.ts:64-93 | the accumulator loop returns the letter sum with DL doubling and TL tripling the letter, and the product of 2 per DW and 3 per TW cell, over the first `\|word\|` path cells |
| Scoring.LetterSumStep | app/utils/wordFinder-fixed.ts:211-232 | one more cell adds its multiplied letter value to the sum and multiplies the word factor by its DW/TW factor |
| Scoring.SumsFrame | app/utils/wordFinder.ts:28-44 | the sums read only the multipliers of the path cells, so a letter swap, which keeps multipliers, does not change them |
| Scoring.LetterSumCaseFrame | app/utils/wordFinder-fixed.ts:71 | two words whose letters agree after upper-casing have the same multiplied letter sum |
| Scoring.LetterSumUpper | app/utils/wordFinder-fixed.ts:71 | the letter sum looks letters up upper-cased, so upper-casing the word does not change it |
| Scoring.LetterSumWithoutMultipliers | app/utils/wordFinder-new.ts:18-21 | on cells without DL/TL the multiplied letter sum equals the plain letter total |
| Scoring.WordMultiplierWithoutMultipliers | app/utils/wordFinder.ts:37-42 | on cells without DW/TW the word factor is 1 |
| Scoring.WordMultiplierPositive | app/utils/wordFinder-fixed.ts:83-88 | the word factor is at least 1 |
| Scoring.LetterSumAtLeastLength | app/utils/wordFinder-fixed.ts:68-93 | the letter sum is at least one point per letter |
| Scoring.LetterTotalAtLeastLength | app/utils/wordFinder-new.ts:18-21 | the plain letter total is at least one point per letter |
| Scoring.LetterTotalCaseFrame | app/utils/wordFinder-new.ts:20 | two words whose letters agree after upper-casing have the same plain letter total |
| Scoring.LetterTotalUpper | app/utils/wordFinder-new.ts:20 | the plain letter total looks letters up upper-cased, so upper-casing the word does not change it |
| Scoring.ApplyLengthMultipliers | app/utils/wordFinder.ts:53-58 | the chain of `if (length >= k) score *= f` multiplies the score by the product of the factors 1.2, 1.5, 2.0, 2.5, 3.0, 4.0 for the thresholds the length reaches |
| Scoring.ScaleAndRound | app/utils/wordFinder-new.ts:23-29 | the length multipliers followed by `Math.round` give the rounded scaled total |
| Scoring.Round | app/utils/wordFinder.ts:63 | `Math.round` returns the integer `r` with `r - 0.5 <= x < r + 0.5` |
| Scoring.LengthFactorAtLeastOne | app/utils/wordFinder.ts:53-58 | the combined length factor is at least 1 |
| Scoring.RoundedScaleAtLeast | app/utils/wordFinder.ts:53-63 | scaling a total of at least `n` by a factor of at least 1 and rounding gives at least `n` |
| FixedScoring.GemBudget | app/utils/wordFinder-fixed.ts:116-119 | three gems per swap: `k` swaps are affordable with `gems` gems exactly when `k <= gems div 3` |
| FixedScoring.CalculateScore | app/utils/wordFinder-fixed.ts:64-106 | `calculateScore` returns `max(0, letterSum * wordFactor + max(0, 3*(L-4)) - 3*\|swaps\|)` |
| FixedScoring.ScoreAtLeastLength | app/utils/wordFinder-fixed.ts:96-104 | without swaps a word scores at least one point per letter, so never below zero |
| FixedScoring.ScoreSwapPenalty | app/utils/wordFinder-fixed.ts:102-104 | the score with swaps is the swap-free score minus three per swap, clamped at zero |
| FixedScoring.IncrementalScore | app/utils/wordFinder-fixed.ts:211-232 | the running sum and word factor the search carries, finished as at lines 247-248, equal `calculateScore` for the same word, path and swaps |
| FixedScoring.ScoreExamples | app/utils/wordFinder-fixed.ts:47-106 | C-A-T on plain cells scores 6; a DW cell doubles it to 12; one swap makes it 3 |
| GridModel.IsValidPosition | app/utils/wordFinder-fixed.ts:121-130 | `isValidPosition` holds exactly when the cell is inside the grid, not visited, and holds a letter that is not blank after `trim` |
| GridModel.NeighboursAreAdjacent | app/utils/wordFinder-fixed.ts:4-8 | the eight `DIRECTIONS` offsets reach exactly the 8-adjacent cells |
| GridModel.PathExtend | app/utils/wordFinder-fixed.ts:200 | appending an adjacent, unused cell of the grid to a path gives a path |
| GridModel.SetMark | app/utils/wordFinder-fixed.ts:271 | setting `visited[r][c]` changes that one mark and no other |
| GridModel.MarkUndo | app/utils/wordFinder-fixed.ts:271-296 | setting a mark and then writing back its old value restores the matrix |
| GridModel.ExtendVisited | app/utils/wordFinder.ts:153-159 | a cell that is unvisited while all earlier path cells are marked is not on the path |
| GridModel.CreateGridWithSwap | app/utils/wordFinder.ts:230-234 | the copied grid has the same shape; the swapped cell shows the new letter and keeps its multiplier; every other cell is unchanged |
| GridModel.SwapsInGridExtend | app/utils/wordFinder-fixed.ts:201 | applying one more swap is `createGridWithSwap` on the grid with the earlier swaps applied |
| GridModel.ApplySwapsUntouched | app/utils/wordFinder-fixed.ts:301-306 | a cell that no swap touches reads as in the original grid |
| GridModel.ApplySwapsKeepsMultipliers | app/utils/wordFinder-fixed.ts:301-306 | swaps never change a multiplier |
| GridModel.SpellStep | app/utils/wordFinder-fixed.ts:199-200 | the word of a path grows by the new cell's upper-cased letter |
| GridModel.SpellAppendSwapped | app/utils/wordFinder-fixed.ts:197-201 | choosing a swap letter at a new cell spells the word so far plus the swap letter |
| GridModel.SpellToConcat | app/utils/wordFinder-new.ts:64-65 | the raw letters of a joined path, up to a length past the first part, are the first part's letters followed by the second part's |
| GridModel.SpellConcat | app/utils/wordFinder-new.ts:64-65 | the spelling of two joined paths is the two spellings joined |
| GridModel.UpperIdempotent | app/utils/wordFinder.ts:112 | upper-casing twice is upper-casing once |
| FixedSearch.SwapBudget | app/utils/wordFinder-fixed.ts:162-164 | a recorded swap list is empty or no longer than `min(maxSwaps, availableGems div 3)` |
| FixedSearch.LettersToTry | app/utils/wordFinder-fixed.ts:154-194 | `lettersToTry` is the cell's upper-cased letter followed, when the budget test passes, by each of S, R, E, A that differs from it |
| FixedSearch.OptionsAtOk | app/utils/wordFinder-fixed.ts:157-194 | the original letter comes first; swaps are offered only when swaps are allowed, fewer than `maxSwaps` are used, `3*(used+1) <= availableGems` and the cell is not yet swapped; each offer differs from the original; when the test passes every such top letter is offered; otherwise nothing but the original is tried |
| FixedSearch.SwapOffersExact | app/utils/wordFinder-fixed.ts:172-191 | every offer is a swap at the cell to a top letter other than the original; every such top letter is offered, because the value test accepts all four |
| FixedSearch.SwapsStep | app/utils/wordFinder-fixed.ts:166-201 | at an unvisited cell no swap sits yet, so the `existingSwap` check never fires; the extended swap list keeps the budget and one swap per cell |
| FixedSearch.StepWalk | app/utils/wordFinder-fixed.ts:197-232 | one letter option extends a well-formed walk: adjacent distinct cells, word spelled on the swapped grid, running score and factor those of the path |
| FixedSearch.FindWordsFromPosition | app/utils/wordFinder-fixed.ts:136-299 | leaves `visited` as it found it; every table entry stays a dictionary word of at least 3 letters, spelled along its path on the grid with its swaps applied, with swaps on distinct path cells within the budget, and with its `calculateScore` score and gem cost; entries are only added or replaced by a higher score; `topScore` only grows and bounds every score; a missing cell or empty letter changes nothing |
| FixedSearch.TryLetter | app/utils/wordFinder-fixed.ts:197-298 | one letter option: with no trie edge nothing changes; otherwise the table invariant is kept, entries only improve and `visited` is restored |
| FixedSearch.Advance | app/utils/wordFinder-fixed.ts:210-298 | after the trie step: `visited` is left as found, every table entry stays well-formed and scored by `calculateScore`, entries are only added or improved, and `topScore` only grows and bounds every score |
| FixedSearch.PruneOrRecord | app/utils/wordFinder-fixed.ts:234-297 | the pruning rule: from six letters on, a word whose estimate falls under 70% of `topScore` is neither recorded nor extended and nothing changes; otherwise a word-end node of at least 3 letters leaves the word in the table with at least its `calculateScore` score |
| FixedSearch.AddCell | app/utils/wordFinder-fixed.ts:211-232 | the letter value with DL/TL is added to the running score; a DW/TW cell multiplies the word factor |
| FixedSearch.RecordAndExtend | app/utils/wordFinder-fixed.ts:245-297 | records the word when the node ends a word of at least 3 letters, then searches the neighbours below 20 letters, restoring `visited` |
| FixedSearch.RecordIfWord | app/utils/wordFinder-fixed.ts:246-267 | a word of at least 3 letters at a word end is offered with score `max(0, round(finalScore))` and gem cost `3*\|swaps\|`; otherwise nothing changes |
| FixedSearch.RecordWord | app/utils/wordFinder-fixed.ts:250-265 | the entry goes in unless one of at least its score exists; `topScore` rises to the stored score |
| FixedSearch.ExploreNeighbours | app/utils/wordFinder-fixed.ts:270-297 | marks the cell, searches every valid neighbour, unmarks it: `visited` is restored and the table invariant kept |
| FixedSearch.ExploreDirections | app/utils/wordFinder-fixed.ts:273-294 | the `DIRECTIONS` loop with the cell marked: `visited` is left as found and the table invariant kept |
| FixedSearch.ExploreDirection | app/utils/wordFinder-fixed.ts:273-293 | one direction: when `isValidPosition` rejects the neighbour, the table and `topScore` are unchanged; otherwise the search from it keeps the invariant and restores `visited` |
| FixedSearch.ScanRow | app/utils/wordFinder-fixed.ts:337-354 | the row scan collects exactly the occupied cells of the row, each once, with priority letter value + 50/30/20/10 for TW/DW/TL/DL |
| FixedSearch.StartPositions | app/utils/wordFinder-fixed.ts:334-358 | the start cells are exactly the occupied cells, each once, in descending priority |
| FixedSearch.SearchFromStart | app/utils/wordFinder-fixed.ts:368-373 | a search from one start cell with a fresh `visited` keeps the table invariant; entries are kept or improved |
| FixedSearch.FindAllWords | app/utils/wordFinder-fixed.ts:308-386 | an empty grid gives `[]`; the result has one entry per word, ranked by score then length; every entry is an upper-cased dictionary word of 3..20 letters on a well-formed path with valid swaps, and is scored by `calculateScore` |
| Ranking.BestByWord.Offer | app/utils/wordFinder-fixed.ts:250-253 | the entry is stored exactly when the word is new or the score is strictly higher; every other word keeps its entry |
| Ranking.ValuesOf | app/utils/wordFinder-fixed.ts:377 | `Array.from(map.values())` lists each entry of the table once, with no word repeated |
| Ranking.RankedValues | app/utils/wordFinder-fixed.ts:376-381 | the table's entries, each once, sorted by score descending and then length descending |
| Ranking.SortRanked | app/utils/wordFinder-new.ts:140-143 | the sort yields a permutation of its input in score-then-length order, and keeps distinct words distinct |
| Ranking.RankedMeansComparatorOrder | app/utils/wordFinder.ts:295-298 | the ranked order is exactly the order in which no pair is out of order for the comparator `b.score - a.score`, then `b.word.length - a.word.length` |
| Ranking.SortBy | app/utils/wordFinder-fixed.ts:358 | a sort by a two-level descending key returns a sorted permutation, without repeats when the input has none |
| Ranking.ValuesStep | app/utils/wordFinder-fixed.ts:377 | taking one more key's entry keeps the listed words distinct, each listed entry the table's own, and every taken key listed |
| Ranking.KeepFirstSound | app/utils/wordFinder-new.ts:136-138 | an element kept by the filter sits at the first index carrying its word |
| Ranking.KeepFirstComplete | app/utils/wordFinder-new.ts:136-138 | the element at the first index carrying a word is kept by the filter |
| Ranking.KeepFirstMember | app/utils/wordFinder-new.ts:136-138 | an element survives the filter exactly when it is at the first index carrying its word |
| Ranking.KeepFirstDistinct | app/utils/wordFinder-new.ts:136-138 | after the filter no word appears twice |
| Ranking.KeepFirstCoversAt | app/utils/wordFinder-new.ts:136-138 | every word of the input is still present after the filter |
| Ranking.KeepFirstIdentity | app/utils/wordFinder-new.ts:136-138 | on a list without repeated words the filter changes nothing |
| PrefixSearch.PrefixesOfMeaning | app/utils/wordFinder.ts:83-91 | the prefix set holds exactly the non-empty prefixes of the dictionary words |
| PrefixSearch.BuildPrefixSet | app/utils/wordFinder.ts:83-91 | the nested loop builds exactly that prefix set |
| PrefixSearch.WordsArePrefixes | app/utils/wordFinder.ts:86-88 | every non-empty word is in its own prefix set |
| PrefixSearch.PrefixPruneSound | app/utils/wordFinder.ts:114-117 | a prefix outside the prefix set begins no dictionary word, so the two-letter cut loses nothing |
| PrefixSearch.CountMatches | app/utils/wordFinder.ts:121-128 | the counting loop, which stops once it passes two, returns the number of dictionary words with the prefix, capped at 3 |
| PrefixSearch.LongTestPasses | app/utils/wordFinder.ts:119-131 | the eight-letter test lets through any prefix that two different words share |
| PrefixSearch.CalculateScore | app/utils/wordFinder.ts:17-64 | the score is the multiplied letter sum times the word factor, scaled by the length factor and rounded; the swaps do not enter: the gem cost is computed and dropped |
| PrefixSearch.ScoreAtLeastLength | app/utils/wordFinder.ts:17-64 | every word scores at least one point per letter |
| PrefixSearch.ScoreOnSwappedGrid | app/utils/wordFinder.ts:17-234 | scoring on the swapped grid equals scoring the upper-cased word on the original grid: swaps keep multipliers |
| PrefixSearch.EntrySwaps | app/utils/wordFinder.ts:197-226 | a recorded entry carries at most one swap; a swap sits on `path[0]` and needs a swap limit of at least one; its word is upper-cased |
| PrefixSearch.StepWalk | app/utils/wordFinder.ts:109-111 | appending a cell's letter and position extends a well-formed walk |
| PrefixSearch.FindWordsFromPosition | app/utils/wordFinder.ts:93-178 | restores `visited`; a missing cell or empty letter changes nothing; a prefix cut at two letters or by the eight-letter test changes nothing; otherwise a dictionary word of at least 3 letters ends in the map under its upper-cased key with at least its score; every entry stays well-formed and entries only improve |
| PrefixSearch.RecordIfWord | app/utils/wordFinder.ts:133-149 | an upper-cased dictionary word of at least 3 letters is stored under its own key unless an entry of at least its score exists; otherwise nothing changes |
| PrefixSearch.ExploreNeighbours | app/utils/wordFinder.ts:151-177 | below 12 letters: mark, search every valid neighbour, unmark; `visited` is restored |
| PrefixSearch.ExploreDirection | app/utils/wordFinder.ts:155-173 | one direction: when `isValidPosition` rejects the neighbour, the table is unchanged; otherwise the search from it keeps the invariant and restores `visited` |
| PrefixSearch.OneSwapGrid | app/utils/wordFinder.ts:220 | the grid of the single swap is `createGridWithSwap` of the original grid |
| PrefixSearch.SwapListsMeaning | app/utils/wordFinder.ts:210-226 | the swap pass's swap lists are exactly the single swaps at the start cell to a swap letter other than the cell's own upper-cased letter |
| PrefixSearch.SwapPass | app/utils/wordFinder.ts:210-226 | the `SWAP_LETTERS` loop searches, in order, with the single swap to each swap letter other than the cell's own; `visited` is restored and entries only improve |
| PrefixSearch.TrySwapLetter | app/utils/wordFinder.ts:211-225 | one `SWAP_LETTERS` iteration: the cell's own letter is skipped; any other letter is searched with the single swap to it, on the grid with that swap applied; `visited` is restored and entries only improve |
| PrefixSearch.FindWordsWithSwaps | app/utils/wordFinder.ts:184-227 | the searches run, in order, are exactly: the start cell with no swap and then, when `min(maxSwaps, floor(gems/5))` is at least one, once with the single swap to each swap letter other than its own, in `SWAP_LETTERS` order; `visited` is restored; every entry stays an upper-cased dictionary word of 3..12 letters spelled on its grid with at most one swap, placed at its first cell; entries only improve |
| PrefixSearch.FindAllWords | app/utils/wordFinder.ts:243-303 | an empty grid gives `[]`; the result has one entry per word, ranked by score then length; each entry is an upper-cased dictionary word of 3..12 letters on a path, with at most one swap at its start, scored by `calculateScore` |
| SetSearch.CalculateScore | app/utils/wordFinder-new.ts:17-30 | the score depends only on the word: its upper-cased letter total scaled by the length factor and rounded; the path is unused |
| SetSearch.ScoreAtLeastLength | app/utils/wordFinder-new.ts:17-30 | every word scores at least one point per letter |
| SetSearch.ScoreIgnoresCase | app/utils/wordFinder-new.ts:20 | upper-casing the word does not change its score |
| SetSearch.ScoreAgreesWithoutMultipliers | app/utils/wordFinder-new.ts:17-30 | on a grid without multipliers this score equals the wordFinder.ts score |
| SetSearch.ScoreExamples | app/utils/wordFinder-new.ts:11-30 | CAT scores 5, and HELLO and hello both score 10 |
| SetSearch.FindFrom | app/utils/wordFinder-new.ts:70 | the search from index `k` finds nothing exactly when no later entry carries the word; otherwise it finds the first such entry |
| SetSearch.FoundList.Find | app/utils/wordFinder-new.ts:70 | `foundWords.find(w => w.word === newWord)` is undefined exactly when no entry carries the word; otherwise it is the first entry that does |
| SetSearch.FoundList.Push | app/utils/wordFinder-new.ts:74-81 | `push` appends the entry and changes nothing else |
| SetSearch.FindWordsFromPosition | app/utils/wordFinder-new.ts:43-108 | restores `visited`; only appends, and a list without repeated words stays so; out of bounds, visited, blank, or a `currentWord` of 20 letters changes nothing; each new entry is a dictionary word of at least 3 letters spelled along its path, with its `calculateScore` score, no swaps and gem cost 0; every dictionary word of 3..12 letters that a continuation through this cell spells is listed |
| SetSearch.VisitCell | app/utils/wordFinder-new.ts:64-107 | extends word and path, records the word, and below 12 letters searches the neighbours; same guarantees as the call it serves |
| SetSearch.CoverFromCell | app/utils/wordFinder-new.ts:67-104 | a word spelled by a continuation through the cell is listed: either it ends there and was recorded, or the neighbour search listed it |
| SetSearch.ContinueWalk | app/utils/wordFinder-new.ts:64-102 | a continuation splits into the current cell and a continuation of the extended word and path |
| SetSearch.RecordIfNew | app/utils/wordFinder-new.ts:67-83 | the list grows exactly when the word has at least 3 letters, is in the dictionary and is not yet listed (the first path found wins); the new entry carries the word's score, the current path, no swaps and gem cost 0 |
| SetSearch.ExploreNeighbours | app/utils/wordFinder-new.ts:85-107 | marks the cell, searches every valid neighbour, unmarks it: `visited` is restored and every continuation from the cell is covered |
| SetSearch.ExploreDirections | app/utils/wordFinder-new.ts:88-104 | the `DIRECTIONS` loop with the cell marked: every dictionary word spelled by a continuation into any of the eight neighbours is listed |
| SetSearch.CoverDirection | app/utils/wordFinder-new.ts:88-104 | coverage of the first `d` directions survives later appends, so adding direction `d` covers the first `d + 1` |
| SetSearch.ExploreDirection | app/utils/wordFinder-new.ts:88-103 | one direction: searched when `isValidPosition` accepts it; continuations through a rejected neighbour do not exist |
| SetSearch.WalkAfterMark | app/utils/wordFinder-new.ts:86 | marking the path's last cell removes no continuation, since no continuation revisits it |
| SetSearch.SearchFromCell | app/utils/wordFinder-new.ts:123-131 | a search from one occupied cell with a fresh `visited` lists every dictionary word of 3..12 letters whose path starts there |
| SetSearch.StartWalk | app/utils/wordFinder-new.ts:126-130 | with a fresh `visited`, every well-formed dictionary path is a continuation of the empty word |
| SetSearch.NoStartHere | app/utils/wordFinder-new.ts:123-124 | a traceable path starts on a non-blank cell inside the scanned columns, so the cells the scan skips start none |
| SetSearch.EntryTraceable | app/utils/wordFinder-new.ts:74-81 | a recorded entry is a distinct-cell adjacent path of 3..12 occupied cells spelling a dictionary word |
| SetSearch.SameEntries | app/utils/wordFinder-new.ts:135-143 | a permutation of the found list keeps every entry sound and traceable and every traceable word listed |
| SetSearch.FindAllWords | app/utils/wordFinder-new.ts:110-148 | an empty grid gives `[]`; the result has no repeated word and is ranked by score then length; every entry is a dictionary word of 3..12 letters whose path spells it; and every dictionary word spelled along some path of 3..12 distinct adjacent non-blank cells is in the result |

## Left out

- The React components, page layout and random grid generator are presentation, not search logic.
- `Date.now()` and the timeouts are replaced by a count of start cells (wordFinder-fixed.ts) or scanned cells (wordFinder.ts) processed before the deadline, each given as a parameter.
- `async`/`Promise`, `console` logging and the `try/catch` that returns `[]` are glue. The cases the model covers do not throw.
- `scoreCache` is left out because it only stores results of a pure function. The lazily built global `wordTrie` becomes a trie built by `FixedSearch.BuildTrie` on each call.
- `COMMON_WORDS` (app/data/words) is not part of this model. The dictionary is a parameter.
- The length factors 1.2 … 4.0 are exact reals, not IEEE doubles. No claim is made that rounding near .5 agrees bit for bit with JavaScript.
- `toUpperCase` is modelled for ASCII letters only. Other characters are left unchanged.
- A cell letter is assumed to have at most one character, as the grid editor's input field enforces. Multi-character letters are not modelled.
- The always-empty `multipliers` field of `FoundWord` is not modelled.
- Tie order is not pinned to JavaScript's. That covers `Map` iteration order and the order `Array.prototype.sort` gives among equal keys. The contracts state only the score-then-length order and the membership of the result.
- `findWordsWithSwaps` is modelled as `findAllWords` calls it: from the empty word, the empty path and no swaps. The `currentSwaps.length >= maxSwaps` test then reduces to the limit being zero.
- The `internal` search methods require what their call sites maintain: the cell is inside the grid, the path is well-formed and the word is below the length cap. The unexported functions are never called otherwise.
- FixedSearch.FindWordsFromPosition: does not state which words are found, because the pruning rule is not a safe bound (it counts no further letter points or word factors) and can skip the best words.
- FixedSearch.Advance: does not restate the pruning rule or the recording of the word. FixedSearch.PruneOrRecord, which it calls on the extended word, states both.
- FixedSearch.Pruned: `topScore.value * 0.7` is compared exactly, as `10 * estimate < 7 * topScore`, not in IEEE double arithmetic.
- FixedSearch.FindAllWords: does not state completeness, for the same reason and because of the deadline.
- PrefixSearch.FindAllWords: does not state completeness, because of the deadline and because the eight-letter test can cut a branch that leads to a longer word; `LongTestPasses` states when that test passes.
- PrefixSearch.EntryOk: does not record that a swapped entry required `allowSwaps`; the swap pass only runs when `allowSwaps` holds and gems are positive, and the model keeps only the swap limit.
