/** The search of wordFinder.ts, the variant the solver page calls: a
    depth-first walk over 8-neighbours that navigates by the set of dictionary
    prefixes, a second pass that swaps only the start cell, floating-point
    length multipliers taken in exact real arithmetic, and the best entry per
    word. */
module PrefixSearch {
  import opened Types
  import opened GridModel
  import opened Scoring
  import opened Ranking

  /** Words stop growing at twelve letters. */
  const MaxWordLength := 12

  /** `SWAP_LETTERS`: the letters the swap pass may put on the start cell. */
  const SwapLetters: seq<CellLetter> := ["A", "E", "I", "O", "U", "R", "S", "T", "L", "N"]

  // --------------------------------------------------------------- scoring

  /** `calculateGemCost`: five gems per swap. */
  function GemCost(swapCount: int): int
  {
    swapCount * 5
  }

  /** What `calculateScore` returns: the letter sum with DL/TL, times the DW/TW
      factor, times the length factor, rounded half up. No swap enters into it:
      the gem cost is computed and then dropped. */
  function Score(word: string, path: seq<Position>, g: Grid): int
    requires |word| <= |path|
  {
    var n := |word|;
    LengthScaled(LetterSumTo(LegacyTable, word, path, g, n) * WordMultiplierTo(path, g, n), n)
  }

  /** `calculateScore` of wordFinder.ts: the shared accumulator loop, the word factor, the
      chain of length multipliers and `Math.round`; the gem cost it computes goes unused. */
  method CalculateScore(word: string, path: seq<Position>, g: Grid, swapsUsed: seq<SwapInfo>) returns (score: int)
    requires |word| <= |path|
    requires forall i :: 0 <= i < |word| ==> CellAt(g, path[i].row, path[i].col).Some?
    ensures score == Score(word, path, g)
  {
    var total, wordMultiplier := SumAlongPath(LegacyTable, word, path, g);
    total := total * wordMultiplier;
    var gemCost := GemCost(|swapsUsed|);
    score := ScaleAndRound(total, |word|);
  }

  /** Every word scores at least one point per letter. */
  lemma ScoreAtLeastLength(word: string, path: seq<Position>, g: Grid)
    requires |word| <= |path|
    ensures Score(word, path, g) >= |word|
  {
    var n := |word|;
    var s, m := LetterSumTo(LegacyTable, word, path, g, n), WordMultiplierTo(path, g, n);
    LetterSumAtLeastLength(LegacyTable, word, path, g, n);
    WordMultiplierPositive(path, g, n);
    ProductAtLeast(s, m);
    LengthFactorAtLeastOne(n);
    RoundedScaleAtLeast(s * m, LengthFactor(n), n);
  }

  /** A word scores the same on the grid its swaps produced as on the original grid:
      swaps change letters only, and letters are taken upper-cased. */
  lemma ScoreOnSwappedGrid(g0: Grid, swaps: seq<SwapInfo>, word: string, path: seq<Position>)
    requires SwapsInGrid(g0, swaps) && |word| <= |path|
    ensures Score(word, path, ApplySwaps(g0, swaps)) == Score(Upper(word), path, g0)
  {
    var g, n := ApplySwaps(g0, swaps), |word|;
    forall i | 0 <= i < n ensures MultAt(g, path[i]) == MultAt(g0, path[i]) {
      ApplySwapsKeepsMultipliers(g0, swaps, path[i], |swaps|);
    }
    SumsFrame(LegacyTable, word, path, g, g0, n);
    LetterSumUpper(LegacyTable, word, path, g0, n);
  }

  // ------------------------------------------------------------ prefix set

  /** The non-empty prefixes `word.substring(0, i)`, `1 <= i <= |word|`, of the words. */
  ghost function PrefixesOf(words: set<string>): set<string>
  {
    set w, i | w in words && 1 <= i <= |w| :: w[..i]
  }

  /** The prefixes `word.substring(0, j)` of one word for `1 <= j < i`. */
  ghost function HeadPrefixes(word: string, i: nat): set<string>
    requires i <= |word| + 1
  {
    set j | 1 <= j < i :: word[..j]
  }

  /** The prefix set holds exactly the non-empty strings some word starts with. */
  lemma PrefixesOfMeaning(words: set<string>, s: string)
    ensures s in PrefixesOf(words) <==> s != [] && exists w :: w in words && s <= w
  {
    if s != [] && exists w :: w in words && s <= w {
      var w :| w in words && s <= w;
      assert s == w[..|s|];
    }
  }

  /** Every non-empty word is among its own prefixes. */
  lemma WordsArePrefixes(words: set<string>, w: string)
    requires w in words && w != []
    ensures w in PrefixesOf(words)
  {
    PrefixesOfMeaning(words, w);
  }

  /** The prefix test cuts no branch that leads to a word: a non-empty string outside
      the prefix set grows into no dictionary word. */
  lemma PrefixPruneSound(words: set<string>, u: string, w: string)
    requires u != [] && u !in PrefixesOf(words) && u <= w
    ensures w !in words
  {
    PrefixesOfMeaning(words, u);
  }

  lemma PrefixesOfAdd(done: set<string>, word: string)
    ensures PrefixesOf(done + {word}) == PrefixesOf(done) + HeadPrefixes(word, |word| + 1)
  {
    var a, b := PrefixesOf(done + {word}), PrefixesOf(done) + HeadPrefixes(word, |word| + 1);
    forall s | s in a ensures s in b {
      var w, i :| w in done + {word} && 1 <= i <= |w| && s == w[..i];
      if w != word {
        assert s in PrefixesOf(done);
      } else {
        assert s in HeadPrefixes(word, |word| + 1);
      }
    }
    forall s | s in b ensures s in a {
      if s in HeadPrefixes(word, |word| + 1) {
        var j :| 1 <= j < |word| + 1 && s == word[..j];
        assert word in done + {word};
      } else {
        var w, i :| w in done && 1 <= i <= |w| && s == w[..i];
        assert w in done + {word};
      }
    }
  }

  /** `buildPrefixSet`: the nested loop over the words and their prefix lengths. */
  method BuildPrefixSet(words: set<string>) returns (prefixes: set<string>)
    ensures prefixes == PrefixesOf(words)
  {
    prefixes := {};
    var rest := words;
    while rest != {}
      invariant rest <= words
      invariant prefixes == PrefixesOf(words - rest)
      decreases |rest|
    {
      var word :| word in rest;
      var i := 1;
      while i <= |word|
        invariant 1 <= i <= |word| + 1
        invariant prefixes == PrefixesOf(words - rest) + HeadPrefixes(word, i)
      {
        assert HeadPrefixes(word, i + 1) == HeadPrefixes(word, i) + {word[..i]};
        prefixes := prefixes + {word[..i]};
        i := i + 1;
      }
      PrefixesOfAdd(words - rest, word);
      assert words - (rest - {word}) == (words - rest) + {word};
      rest := rest - {word};
    }
  }

  // ------------------------------------------------------- long-word test

  /** The words that start with `prefix`: `word.startsWith(prefix)`. */
  ghost function Matches(words: set<string>, prefix: string): set<string>
  {
    set w | w in words && prefix <= w
  }

  /** The `matchCount` loop: it counts the words that start with `prefix` and stops
      once the count passes two. */
  method CountMatches(words: set<string>, prefix: string) returns (matchCount: int)
    ensures matchCount == Min(3, |Matches(words, prefix)|)
  {
    matchCount := 0;
    var rest := words;
    while rest != {}
      invariant rest <= words
      invariant matchCount == |Matches(words - rest, prefix)| <= 2
      decreases |rest|
    {
      var word :| word in rest;
      ghost var seen := Matches(words - rest, prefix);
      assert words - (rest - {word}) == (words - rest) + {word};
      if prefix <= word {
        assert Matches(words - (rest - {word}), prefix) == seen + {word};
        matchCount := matchCount + 1;
        if matchCount > 2 {
          var all := Matches(words, prefix);
          assert all == (seen + {word}) + (all - (seen + {word}));
          break;
        }
      } else {
        assert Matches(words - (rest - {word}), prefix) == seen;
      }
      rest := rest - {word};
    }
    if rest == {} {
      assert words - rest == words;
    }
  }

  /** The test at eight letters and more: stop when no word starts with the prefix, or
      when exactly one does and the prefix is not itself a word. */
  ghost predicate LongPruned(words: set<string>, u: string)
  {
    |u| >= 8 && (Matches(words, u) == {} || (|Matches(words, u)| == 1 && u !in words))
  }

  /** The test from two letters on: stop when the prefix is not in the prefix set. */
  predicate PrefixPruned(u: string, prefixSet: set<string>)
  {
    |u| >= 2 && u !in prefixSet
  }

  /** The long-word test lets through every prefix of a word other than itself that
      at least one other word also extends. */
  lemma LongTestPasses(words: set<string>, u: string, w1: string, w2: string)
    requires w1 in words && w2 in words && w1 != w2 && u <= w1 && u <= w2
    ensures !LongPruned(words, u)
  {
    assert w1 in Matches(words, u) && w2 in Matches(words, u);
    assert {w1, w2} <= Matches(words, u);
    var m := Matches(words, u);
    assert m == {w1, w2} + (m - {w1, w2});
  }

  // ------------------------------------------------------------------ swaps

  /** `Math.min(maxSwaps, Math.floor(availableGems / 5))`; for the positive divisor 5,
      Euclidean division is the floor of the quotient. */
  function SwapLimit(settings: SolverSettings): int
  {
    Min(settings.maxSwaps, settings.availableGems / 5)
  }

  /** A swap of the swap pass: the start cell, from its own letter to a swap letter
      other than that letter upper-cased, made only when the swap limit is at least one. */
  ghost predicate SwapOk(g: Grid, settings: SolverSettings, s: SwapInfo)
  {
    && CellAt(g, s.position.row, s.position.col).Some?
    && s.originalLetter == LetterAt(g, s.position)
    && s.newLetter in SwapLetters
    && s.newLetter != Upper(s.originalLetter)
    && SwapLimit(settings) >= 1
  }

  /** The swaps a walk carries: none, or one swap of the walk's start cell. */
  ghost predicate StartSwapsOk(g: Grid, settings: SolverSettings, swaps: seq<SwapInfo>, start: Position)
  {
    swaps == [] || (|swaps| == 1 && SwapOk(g, settings, swaps[0]) && swaps[0].position == start)
  }

  // ----------------------------------------------------------------- search

  /** The first cell of the walk: the path's first cell, or `p` while the path is empty. */
  function StartOf(path: seq<Position>, p: Position): Position
  {
    if path == [] then p else path[0]
  }

  /** What the search knows about the walk: `g` is the original grid `g0` with the walk's
      swaps applied, the path is a path of `g` from the start cell, and the word is the
      concatenation of its cells' letters. */
  ghost predicate WalkOk(g0: Grid, settings: SolverSettings, swaps: seq<SwapInfo>, g: Grid,
                         word: string, path: seq<Position>, start: Position)
  {
    && SwapsInGrid(g0, swaps) && g == ApplySwaps(g0, swaps)
    && StartSwapsOk(g0, settings, swaps, start)
    && IsPath(g, path) && (path != [] ==> path[0] == start)
    && |word| == |path| && word == SpellTo(g, path, |path|)
  }

  /** An entry of the table: an upper-cased dictionary word of 3 to 12 letters, spelled
      along its path on the original grid with its swaps applied, scored by `Score`. */
  ghost predicate EntryOk(g0: Grid, words: set<string>, settings: SolverSettings, e: FoundWord)
  {
    && e.word in words
    && 3 <= |e.word| <= MaxWordLength
    && |e.path| == |e.word|
    && IsPath(g0, e.path)
    && SwapsInGrid(g0, e.swapsUsed)
    && StartSwapsOk(g0, settings, e.swapsUsed, e.path[0])
    && e.word == Spell(ApplySwaps(g0, e.swapsUsed), e.path)
    && e.score == Score(e.word, e.path, g0)
    && e.gemCost == GemCost(|e.swapsUsed|)
  }

  ghost predicate TableOk(m: map<string, FoundWord>, g0: Grid, words: set<string>, settings: SolverSettings)
  {
    KeyedByWord(m) && forall w {:trigger EntryOk(g0, words, settings, m[w])} :: w in m ==> EntryOk(g0, words, settings, m[w])
  }

  /** A table entry carries at most one swap, on the first cell of its path, and only
      when the swap limit is at least one. */
  lemma EntrySwaps(g0: Grid, words: set<string>, settings: SolverSettings, e: FoundWord)
    requires EntryOk(g0, words, settings, e)
    ensures |e.swapsUsed| <= 1
    ensures |e.swapsUsed| == 1 ==> e.swapsUsed[0].position == e.path[0] && SwapLimit(settings) >= 1
    ensures Upper(e.word) == e.word
  {
    UpperIdempotent(SpellTo(ApplySwaps(g0, e.swapsUsed), e.path, |e.path|));
  }

  /** One step of the walk onto cell `p` with its own letter. */
  lemma StepWalk(g0: Grid, settings: SolverSettings, swaps: seq<SwapInfo>, g: Grid,
                 word: string, path: seq<Position>, p: Position)
    requires WalkOk(g0, settings, swaps, g, word, path, StartOf(path, p))
    requires HasCell(g, p) && p !in path && (path == [] || Adjacent(path[|path| - 1], p))
    requires |LetterAt(g, p)| == 1
    ensures WalkOk(g0, settings, swaps, g, word + LetterAt(g, p), path + [p], (path + [p])[0])
  {
    PathExtend(g, path, p);
    SpellToStep(g, path, p);
  }

  /** `findWordsFromPosition` of wordFinder.ts. `g` is the grid the walk runs on, which
      the swap pass replaces by a copy with the start cell swapped; `g0` is the grid
      the solver was given. */
  method FindWordsFromPosition(g: Grid, r: int, c: int, visited: array2<bool>, currentWord: string,
                               currentPath: seq<Position>, words: set<string>, found: BestByWord,
                               prefixSet: set<string>, settings: SolverSettings,
                               currentSwaps: seq<SwapInfo>, ghost g0: Grid)
    requires VisitedShape(visited, g) && InBounds(g, r, c) && !visited[r, c]
    requires WalkOk(g0, settings, currentSwaps, g, currentWord, currentPath, StartOf(currentPath, Position(r, c)))
    requires PathVisited(visited, g, currentPath)
    requires currentPath == [] || Adjacent(currentPath[|currentPath| - 1], Position(r, c))
    requires |currentWord| < MaxWordLength
    requires TableOk(found.entries, g0, words, settings)
    modifies visited, found
    decreases MaxWordLength - |currentWord|, 1
    ensures Marks(visited) == old(Marks(visited))
    ensures TableOk(found.entries, g0, words, settings)
    ensures KeptOrImproved(old(found.entries), found.entries)
    // no cell there, or an empty letter: nothing to do
    ensures CellAt(g, r, c).None? || LetterAt(g, Position(r, c)) == "" ==> found.entries == old(found.entries)
    // either test stops the branch before anything is recorded
    ensures var u := Upper(currentWord + LetterAt(g, Position(r, c)));
            PrefixPruned(u, prefixSet) || LongPruned(words, u) ==> found.entries == old(found.entries)
    // a dictionary word of three letters or more that passes both tests is in the table
    ensures var u := Upper(currentWord + LetterAt(g, Position(r, c)));
            CellAt(g, r, c).Some? && LetterAt(g, Position(r, c)) != "" &&
            !PrefixPruned(u, prefixSet) && !LongPruned(words, u) && |u| >= 3 && u in words ==>
      u in found.entries && found.entries[u].score >= Score(u, currentPath + [Position(r, c)], g0)
  {
    var p := Position(r, c);
    if c >= |g[r]| {
      return;
    }
    var cell := g[r][c];
    if cell.letter == "" {
      return;
    }
    var letter := cell.letter;
    var newWord := currentWord + letter;
    var newPath := currentPath + [p];
    var upperWord := Upper(newWord);
    if |newWord| >= 2 && upperWord !in prefixSet {
      return;
    }
    if |newWord| >= 8 {
      var matchCount := CountMatches(words, upperWord);
      if matchCount == 0 {
        return;
      }
      if matchCount == 1 && upperWord !in words {
        return;
      }
    }
    assert LetterAt(g, p) == letter;
    ExtendVisited(visited, g, currentPath, p);
    StepWalk(g0, settings, currentSwaps, g, currentWord, currentPath, p);
    ghost var m0 := found.entries;
    RecordIfWord(found, newWord, newPath, words, settings, currentSwaps, g, g0);
    ghost var m1 := found.entries;
    if |newWord| < MaxWordLength {
      ExploreNeighbours(g, r, c, visited, newWord, newPath, words, found, prefixSet, settings, currentSwaps, g0);
      KeptOrImprovedTransitive(m0, m1, found.entries);
      if |newWord| >= 3 && upperWord in words {
        KeptScore(m1, found.entries, upperWord, Score(upperWord, newPath, g0));
      }
    }
  }

  /** The recording block: a dictionary word of three letters or more is scored on the
      walk's grid and offered to the table under its upper-cased form. */
  method RecordIfWord(found: BestByWord, newWord: string, newPath: seq<Position>, words: set<string>,
                      settings: SolverSettings, swaps: seq<SwapInfo>, g: Grid, ghost g0: Grid)
    requires newPath != [] && WalkOk(g0, settings, swaps, g, newWord, newPath, newPath[0])
    requires |newWord| <= MaxWordLength
    requires TableOk(found.entries, g0, words, settings)
    modifies found
    ensures TableOk(found.entries, g0, words, settings)
    ensures KeptOrImproved(old(found.entries), found.entries)
    ensures |newWord| >= 3 && Upper(newWord) in words ==>
      Upper(newWord) in found.entries && found.entries[Upper(newWord)].score >= Score(Upper(newWord), newPath, g0)
    ensures !(|newWord| >= 3 && Upper(newWord) in words) ==> found.entries == old(found.entries)
  {
    var upperWord := Upper(newWord);
    if |newWord| >= 3 && upperWord in words {
      var gemCost := GemCost(|swaps|);
      var score := CalculateScore(newWord, newPath, g, swaps);
      ScoreOnSwappedGrid(g0, swaps, newWord, newPath);
      SameShapePath(g, g0, newPath);
      var entry := FoundWord(upperWord, newPath, score, swaps, gemCost);
      assert EntryOk(g0, words, settings, entry);
      var stored := found.Offer(entry);
    }
  }

  /** The `DIRECTIONS` loop: mark the cell, search every valid neighbour, unmark it. */
  method ExploreNeighbours(g: Grid, r: int, c: int, visited: array2<bool>, word: string,
                           path: seq<Position>, words: set<string>, found: BestByWord,
                           prefixSet: set<string>, settings: SolverSettings, swaps: seq<SwapInfo>,
                           ghost g0: Grid)
    requires VisitedShape(visited, g) && InBounds(g, r, c) && !visited[r, c]
    requires |path| > 0 && path[|path| - 1] == Position(r, c)
    requires WalkOk(g0, settings, swaps, g, word, path, path[0])
    requires forall i :: 0 <= i < |path| - 1 ==> visited[path[i].row, path[i].col]
    requires |word| < MaxWordLength
    requires TableOk(found.entries, g0, words, settings)
    modifies visited, found
    decreases MaxWordLength - |word|, 3
    ensures Marks(visited) == old(Marks(visited))
    ensures TableOk(found.entries, g0, words, settings)
    ensures KeptOrImproved(old(found.entries), found.entries)
  {
    ghost var start := Marks(visited);
    assert start[r][c] == visited[r, c];
    SetMark(visited, r, c, true);
    ghost var marked := Marks(visited);
    assert MarkedPath(marked, path) by {
      forall i | 0 <= i < |path| ensures marked[path[i].row][path[i].col] {
        assert marked[path[i].row][path[i].col] == visited[path[i].row, path[i].col];
      }
    }
    var d := 0;
    while d < |Directions|
      invariant 0 <= d <= |Directions|
      invariant Marks(visited) == marked
      invariant TableOk(found.entries, g0, words, settings)
      invariant KeptOrImproved(old(found.entries), found.entries)
    {
      ghost var before := found.entries;
      PathVisitedFromMarks(visited, g, path);
      ExploreDirection(g, r, c, d, visited, word, path, words, found, prefixSet, settings, swaps, g0);
      KeptOrImprovedTransitive(old(found.entries), before, found.entries);
      d := d + 1;
    }
    SetMark(visited, r, c, false);
    MarkUndo(start, r, c);
  }

  /** One direction of the loop: the neighbour is searched when `isValidPosition` accepts it. */
  method ExploreDirection(g: Grid, r: int, c: int, d: nat, visited: array2<bool>, word: string,
                          path: seq<Position>, words: set<string>, found: BestByWord,
                          prefixSet: set<string>, settings: SolverSettings, swaps: seq<SwapInfo>,
                          ghost g0: Grid)
    requires VisitedShape(visited, g) && d < |Directions|
    requires |path| > 0 && path[|path| - 1] == Position(r, c)
    requires WalkOk(g0, settings, swaps, g, word, path, path[0])
    requires PathVisited(visited, g, path)
    requires |word| < MaxWordLength
    requires TableOk(found.entries, g0, words, settings)
    modifies visited, found
    decreases MaxWordLength - |word|, 2
    ensures Marks(visited) == old(Marks(visited))
    ensures TableOk(found.entries, g0, words, settings)
    ensures KeptOrImproved(old(found.entries), found.entries)
    ensures var q := Neighbour(Position(r, c), d);
            old(!IsValidPosition(q.row, q.col, g, visited)) ==> found.entries == old(found.entries)
  {
    var q := Neighbour(Position(r, c), d);
    if IsValidPosition(q.row, q.col, g, visited) {
      NeighboursAreAdjacent(Position(r, c), q);
      FindWordsFromPosition(g, q.row, q.col, visited, word, path, words, found, prefixSet, settings, swaps, g0);
    }
  }

  /** The grid of one swap: `createGridWithSwap` applied once is the swap list applied. */
  lemma OneSwapGrid(g: Grid, s: SwapInfo)
    requires CellAt(g, s.position.row, s.position.col).Some?
    ensures SwapsInGrid(g, [s])
    ensures ApplySwaps(g, [s]) == CreateGridWithSwap(g, s)
  {
    SwapsInGridExtend(g, [], s);
    assert [] + [s] == [s];
  }

  /** The swap lists of the swap pass at cell `p` whose letter is `original`, in
      `SWAP_LETTERS` order: one single swap per letter among the first `k` that differs
      from `own`, the original letter upper-cased. */
  function SwapLists(p: Position, original: CellLetter, own: CellLetter, k: nat): seq<seq<SwapInfo>>
    requires k <= |SwapLetters|
  {
    if k == 0 then []
    else SwapLists(p, original, own, k - 1) + SwapListAt(p, original, own, k - 1)
  }

  /** The swap pass's list for the `i`-th swap letter, if that letter is not `own`. */
  function SwapListAt(p: Position, original: CellLetter, own: CellLetter, i: nat): seq<seq<SwapInfo>>
    requires i < |SwapLetters|
  {
    if SwapLetters[i] != own then [[SwapInfo(p, original, SwapLetters[i])]] else []
  }

  /** A swap list is among the swap pass's lists exactly when it is the single swap to
      some swap letter other than `own`. */
  lemma {:induction false} SwapListsMeaning(p: Position, original: CellLetter, own: CellLetter, k: nat, x: seq<SwapInfo>)
    requires k <= |SwapLetters|
    ensures x in SwapLists(p, original, own, k) <==>
      exists i :: 0 <= i < k && SwapLetters[i] != own && x == [SwapInfo(p, original, SwapLetters[i])]
    decreases k
  {
    if k > 0 {
      SwapListsMeaning(p, original, own, k - 1, x);
    }
  }

  /** `findWordsWithSwaps` as `findAllWords` calls it: from the empty word, the empty path
      and no swaps. `searched` lists, in order, the swap lists it runs
      `findWordsFromPosition` with from the start cell, each on the grid with those swaps
      applied: no swap and then, when the swap limit is at least one, the single swap to
      each swap letter other than the cell's own. */
  method FindWordsWithSwaps(g: Grid, r: int, c: int, visited: array2<bool>, words: set<string>,
                            found: BestByWord, prefixSet: set<string>, settings: SolverSettings)
    returns (ghost searched: seq<seq<SwapInfo>>)
    requires VisitedShape(visited, g) && InBounds(g, r, c) && !visited[r, c] && Occupied(g, r, c)
    requires TableOk(found.entries, g, words, settings)
    modifies visited, found
    ensures var original := g[r][c].letter;
            searched == [[]] + (if SwapLimit(settings) >= 1
                                then SwapLists(Position(r, c), original, Upper(original), |SwapLetters|) else [])
    ensures Marks(visited) == old(Marks(visited))
    ensures TableOk(found.entries, g, words, settings)
    ensures KeptOrImproved(old(found.entries), found.entries)
  {
    var maxSwaps := Min(settings.maxSwaps, settings.availableGems / 5);
    var currentSwaps: seq<SwapInfo> := [];
    assert Marks(visited)[r][c] == visited[r, c];
    assert WalkOk(g, settings, [], g, "", [], Position(r, c));
    if |currentSwaps| >= maxSwaps {
      FindWordsFromPosition(g, r, c, visited, "", [], words, found, prefixSet, settings, currentSwaps, g);
      searched := [currentSwaps];
      return;
    }
    FindWordsFromPosition(g, r, c, visited, "", [], words, found, prefixSet, settings, currentSwaps, g);
    assert Marks(visited)[r][c] == visited[r, c];
    ghost var before := found.entries;
    ghost var swapped := SwapPass(g, r, c, visited, words, found, prefixSet, settings);
    KeptOrImprovedTransitive(old(found.entries), before, found.entries);
    searched := [currentSwaps] + swapped;
  }

  /** The `SWAP_LETTERS` loop of `findWordsWithSwaps`, run when the swap limit is at least
      one. `searched` lists the swap lists it searches with, in order. */
  method SwapPass(g: Grid, r: int, c: int, visited: array2<bool>, words: set<string>,
                  found: BestByWord, prefixSet: set<string>, settings: SolverSettings)
    returns (ghost searched: seq<seq<SwapInfo>>)
    requires VisitedShape(visited, g) && InBounds(g, r, c) && !visited[r, c] && Occupied(g, r, c)
    requires SwapLimit(settings) >= 1
    requires TableOk(found.entries, g, words, settings)
    modifies visited, found
    ensures var original := g[r][c].letter;
            searched == SwapLists(Position(r, c), original, Upper(original), |SwapLetters|)
    ensures Marks(visited) == old(Marks(visited))
    ensures TableOk(found.entries, g, words, settings)
    ensures KeptOrImproved(old(found.entries), found.entries)
  {
    ghost var original := g[r][c].letter;
    ghost var own := Upper(original);
    searched := [];
    var i := 0;
    while i < |SwapLetters|
      invariant 0 <= i <= |SwapLetters|
      invariant Marks(visited) == old(Marks(visited))
      invariant TableOk(found.entries, g, words, settings)
      invariant KeptOrImproved(old(found.entries), found.entries)
      invariant searched == SwapLists(Position(r, c), original, own, i)
    {
      assert Marks(visited)[r][c] == visited[r, c];
      ghost var before := found.entries;
      ghost var more := TrySwapLetter(g, r, c, visited, words, found, prefixSet, settings, i, own);
      KeptOrImprovedTransitive(old(found.entries), before, found.entries);
      searched := searched + more;
      i := i + 1;
    }
  }

  /** One iteration of the `SWAP_LETTERS` loop: unless the letter is the cell's own, search
      from the start cell on the copy of the grid with that letter swapped in. `tried`
      is the swap list searched with, or nothing. */
  method TrySwapLetter(g: Grid, r: int, c: int, visited: array2<bool>, words: set<string>,
                       found: BestByWord, prefixSet: set<string>, settings: SolverSettings, i: nat,
                       ghost own: CellLetter)
    returns (ghost tried: seq<seq<SwapInfo>>)
    requires VisitedShape(visited, g) && InBounds(g, r, c) && !visited[r, c] && Occupied(g, r, c)
    requires i < |SwapLetters| && SwapLimit(settings) >= 1 && own == Upper(g[r][c].letter)
    requires TableOk(found.entries, g, words, settings)
    modifies visited, found
    ensures tried == SwapListAt(Position(r, c), g[r][c].letter, own, i)
    ensures Marks(visited) == old(Marks(visited))
    ensures TableOk(found.entries, g, words, settings)
    ensures KeptOrImproved(old(found.entries), found.entries)
  {
    var originalCell := g[r][c];
    var newLetter := SwapLetters[i];
    tried := [];
    if newLetter != Upper(originalCell.letter) {
      var swapInfo := SwapInfo(Position(r, c), originalCell.letter, newLetter);
      var modifiedGrid := CreateGridWithSwap(g, swapInfo);
      var newSwaps := [swapInfo];
      OneSwapGrid(g, swapInfo);
      assert Marks(visited)[r][c] == visited[r, c];
      assert WalkOk(g, settings, newSwaps, modifiedGrid, "", [], Position(r, c));
      FindWordsFromPosition(modifiedGrid, r, c, visited, "", [], words, found, prefixSet, settings, newSwaps, g);
      tried := [newSwaps];
    }
  }

  /** `findAllWords` of wordFinder.ts. `budget` is the number of cells the scan reaches
      before the eight-second deadline; the dictionary is the word set. */
  method FindAllWords(g: Grid, settings: SolverSettings, words: set<string>, budget: nat) returns (results: seq<FoundWord>)
    ensures |g| == 0 || |g[0]| == 0 ==> results == []
    ensures Ranked(results) && DistinctWords(results)
    ensures forall i :: 0 <= i < |results| ==> EntryOk(g, words, settings, results[i])
  {
    if |g| == 0 || |g[0]| == 0 {
      return [];
    }
    var found := new BestByWord();
    var prefixSet := BuildPrefixSet(words);
    var steps := 0;
    var row := 0;
    while row < |g|
      invariant 0 <= row <= |g|
      invariant TableOk(found.entries, g, words, settings)
    {
      var col := 0;
      while col < |g[0]|
        invariant 0 <= col <= |g[0]|
        invariant TableOk(found.entries, g, words, settings)
      {
        if steps >= budget {
          break;
        }
        steps := steps + 1;
        if col < |g[row]| {
          var cell := g[row][col];
          if cell.letter != "" && !IsBlank(cell.letter) {
            var visited := new bool[|g|, |g[0]|]((i, j) => false);
            assert WalkOk(g, settings, [], g, "", [], Position(row, col));
            FindWordsFromPosition(g, row, col, visited, "", [], words, found, prefixSet, settings, [], g);
            if settings.allowSwaps && settings.availableGems > 0 {
              assert Marks(visited)[row][col] == visited[row, col];
              ghost var searched := FindWordsWithSwaps(g, row, col, visited, words, found, prefixSet, settings);
            }
          }
        }
        col := col + 1;
      }
      if steps >= budget {
        break;
      }
      row := row + 1;
    }
    results := RankedValues(found.entries);
    forall i | 0 <= i < |results| ensures EntryOk(g, words, settings, results[i]) {
      assert found.entries[results[i].word] == results[i];
    }
  }
}
