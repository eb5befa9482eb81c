/** The search of wordFinder-fixed.ts: a depth-first walk over 8-neighbours
    guided by the dictionary trie, trying the cell's own letter and, within
    the gem and swap budget, up to four swap letters at each cell; it prunes
    on a score estimate and keeps the best entry per word. */
module FixedSearch {
  import opened Types
  import opened GridModel
  import opened Scoring
  import opened FixedScoring
  import opened DictionaryTrie
  import opened Ranking

  /** Longest word the search builds. */
  const MaxWordLength := 20

  /** `SWAP_LETTERS.slice(0, 4)`: the only swap letters ever offered. */
  const TopSwapLetters: seq<char> := ['S', 'R', 'E', 'A']

  /** Letters that pass the value test whatever the original letter is worth. */
  const AlwaysValuable: seq<char> := ['S', 'R', 'E', 'A', 'T']

  /** The `{ value: number }` object shared by all calls for pruning. */
  class TopScore {
    var value: int

    constructor ()
      ensures value == 0
    {
      value := 0;
    }
  }

  // ------------------------------------------------------------ dictionary

  ghost function UpperWords(words: seq<string>): set<string>
  {
    set w | w in words :: Upper(w)
  }

  lemma UpperWordsAppend(words: seq<string>, w: string)
    ensures UpperWords(words + [w]) == UpperWords(words) + {Upper(w)}
  {
    assert forall v :: v in words + [w] <==> v in words || v == w;
  }

  /** `buildTrie` without the module-level cache: every word is inserted upper-cased. */
  method BuildTrie(words: seq<string>) returns (trie: Trie)
    ensures fresh(trie) && trie.Valid()
    ensures trie.Words() == UpperWords(words)
  {
    trie := new Trie();
    var i := 0;
    while i < |words|
      invariant 0 <= i <= |words|
      invariant fresh(trie) && trie.Valid()
      invariant trie.Words() == UpperWords(words[..i])
    {
      trie.Insert(Upper(words[i]));
      UpperWordsAppend(words[..i], words[i]);
      assert words[..i + 1] == words[..i] + [words[i]];
      i := i + 1;
    }
    assert words[..i] == words;
  }

  // ---------------------------------------------------------------- swaps

  /** One recorded swap: on a cell of the grid, from that cell's letter to one of
      the top swap letters that differs from it. */
  ghost predicate SwapOk(g: Grid, s: SwapInfo)
  {
    && CellAt(g, s.position.row, s.position.col).Some?
    && s.originalLetter == LetterAt(g, s.position)
    && |s.newLetter| == 1 && s.newLetter[0] in TopSwapLetters
    && s.newLetter != Upper(s.originalLetter)
  }

  /** The swaps of a path: each valid, each on a distinct cell of the path, and no more
      than the settings allow (none at all unless swaps are switched on). */
  ghost predicate SwapsOk(g: Grid, settings: SolverSettings, swaps: seq<SwapInfo>, path: seq<Position>)
  {
    && SwapsInGrid(g, swaps)
    && (forall k :: 0 <= k < |swaps| ==> SwapOk(g, swaps[k]) && swaps[k].position in path)
    && (forall k, l :: 0 <= k < l < |swaps| ==> swaps[k].position != swaps[l].position)
    && (swaps == [] ||
        (settings.allowSwaps && |swaps| <= settings.maxSwaps && GemCost(|swaps|) <= settings.availableGems))
  }

  /** The swap budget: a recorded swap list is no longer than `maxSwaps` and than `availableGems div 3`. */
  lemma SwapBudget(g: Grid, settings: SolverSettings, swaps: seq<SwapInfo>, path: seq<Position>)
    requires SwapsOk(g, settings, swaps, path)
    ensures swaps == [] || |swaps| <= Min(settings.maxSwaps, settings.availableGems / 3)
  {
    GemBudget(|swaps|, settings.availableGems);
  }

  /** The test in front of the swap offers at a cell. */
  predicate SwapAllowed(settings: SolverSettings, swaps: seq<SwapInfo>, p: Position)
  {
    settings.allowSwaps && |swaps| < settings.maxSwaps &&
    GemCost(|swaps| + 1) <= settings.availableGems && !HasSwapAtPosition(swaps, p)
  }

  /** A letter to try at the current cell: its own letter, or a swap. */
  datatype LetterOption = LetterOption(letter: char, swap: Option<SwapInfo>)

  function SwapsAfter(swaps: seq<SwapInfo>, opt: LetterOption): seq<SwapInfo>
  {
    if opt.swap.Some? then swaps + [opt.swap.value] else swaps
  }

  /** An option offered at cell `p`: the upper-cased letter of the cell, or an allowed swap. */
  ghost predicate OptionOk(g: Grid, settings: SolverSettings, swaps: seq<SwapInfo>, p: Position, opt: LetterOption)
  {
    && UpperChar(opt.letter) == opt.letter
    && (opt.swap.None? ==> |LetterAt(g, p)| == 1 && [opt.letter] == Upper(LetterAt(g, p)))
    && (opt.swap.Some? ==>
          opt.swap.value == SwapInfo(p, LetterAt(g, p), [opt.letter]) &&
          SwapOk(g, opt.swap.value) && SwapAllowed(settings, swaps, p))
  }

  /** The swap offers among the first `k` top swap letters: each one that differs
      from the cell's upper-cased letter `original`, in order. */
  function SwapOffersTo(p: Position, letter: CellLetter, original: char, k: nat): seq<LetterOption>
    requires k <= |TopSwapLetters|
  {
    if k == 0 then []
    else
      var newLetter := TopSwapLetters[k - 1];
      SwapOffersTo(p, letter, original, k - 1) +
        (if newLetter != original then [LetterOption(newLetter, Some(SwapInfo(p, letter, [newLetter])))] else [])
  }

  /** The `lettersToTry` list: the cell's own letter first, then, when the budget test
      passes, every top swap letter other than it (the value test never rejects one). */
  function OptionsAt(g: Grid, p: Position, settings: SolverSettings, swaps: seq<SwapInfo>): seq<LetterOption>
    requires |LetterAt(g, p)| == 1
  {
    var letter := LetterAt(g, p);
    var original := UpperChar(letter[0]);
    [LetterOption(original, None)] +
      (if SwapAllowed(settings, swaps, p) then SwapOffersTo(p, letter, original, |TopSwapLetters|) else [])
  }

  /** `lettersToTry`, built as the source builds it. */
  method LettersToTry(g: Grid, p: Position, settings: SolverSettings, swaps: seq<SwapInfo>) returns (options: seq<LetterOption>)
    requires CellAt(g, p.row, p.col).Some? && |LetterAt(g, p)| == 1
    ensures options == OptionsAt(g, p, settings, swaps)
  {
    var letter := LetterAt(g, p);
    var original := UpperChar(letter[0]);
    options := [LetterOption(original, None)];
    if settings.allowSwaps && |swaps| < settings.maxSwaps {
      var gemsNeeded := (|swaps| + 1) * 3;
      if gemsNeeded <= settings.availableGems {
        if !HasSwapAtPosition(swaps, p) {
          var k := 0;
          while k < |TopSwapLetters|
            invariant 0 <= k <= |TopSwapLetters|
            invariant options == [LetterOption(original, None)] + SwapOffersTo(p, letter, original, k)
          {
            var newLetter := TopSwapLetters[k];
            if newLetter != original {
              var originalValue := LetterScore(FixedTable, [original]);
              var newValue := LetterScore(FixedTable, [newLetter]);
              if newValue >= originalValue || newLetter in AlwaysValuable {
                options := options + [LetterOption(newLetter, Some(SwapInfo(p, letter, [newLetter])))];
              } else {
                assert false;
              }
            }
            k := k + 1;
          }
        }
      }
    }
  }

  /** A swap of the cell at `p` from `letter` to a top swap letter other than `original`. */
  predicate SwapOfferOk(p: Position, letter: CellLetter, original: char, opt: LetterOption)
  {
    opt.swap == Some(SwapInfo(p, letter, [opt.letter])) && opt.letter in TopSwapLetters && opt.letter != original
  }

  /** Every swap offer is a valid swap of the cell to a top swap letter other than `original`,
      and every such letter among the first `k` is offered. */
  lemma {:induction false} SwapOffersExact(g: Grid, p: Position, original: char, k: nat, m: nat)
    requires k <= |TopSwapLetters| && HasCell(g, p) && |LetterAt(g, p)| == 1
    requires original == UpperChar(LetterAt(g, p)[0])
    ensures forall i :: 0 <= i < |SwapOffersTo(p, LetterAt(g, p), original, k)| ==>
              SwapOfferOk(p, LetterAt(g, p), original, SwapOffersTo(p, LetterAt(g, p), original, k)[i])
    ensures m < k && TopSwapLetters[m] != original ==>
      exists i :: 0 <= i < |SwapOffersTo(p, LetterAt(g, p), original, k)| &&
                  SwapOffersTo(p, LetterAt(g, p), original, k)[i].letter == TopSwapLetters[m]
    decreases k
  {
    if k > 0 {
      var letter := LetterAt(g, p);
      var before := SwapOffersTo(p, letter, original, k - 1);
      var offers := SwapOffersTo(p, letter, original, k);
      var l := TopSwapLetters[k - 1];
      var extra := if l != original then [LetterOption(l, Some(SwapInfo(p, letter, [l])))] else [];
      assert offers == before + extra;
      SwapOffersExact(g, p, original, k - 1, m);
      forall i | 0 <= i < |offers| ensures SwapOfferOk(p, letter, original, offers[i]) {
        if i < |before| {
          assert offers[i] == before[i];
        } else {
          assert offers[i] == extra[i - |before|];
        }
      }
      if m < k && TopSwapLetters[m] != original {
        if m < k - 1 {
          var i :| 0 <= i < |before| && before[i].letter == TopSwapLetters[m];
          assert offers[i] == before[i];
        } else {
          assert offers[|before|] == extra[0];
        }
      }
    }
  }

  /** What the list of options holds: each option is valid at the cell, the cell's own
      letter comes first and no swap offers it again, every top swap letter other than it
      is offered when the budget test passes, and nothing else is offered otherwise. */
  lemma OptionsAtOk(g: Grid, p: Position, settings: SolverSettings, swaps: seq<SwapInfo>)
    requires HasCell(g, p) && |LetterAt(g, p)| == 1
    ensures var options := OptionsAt(g, p, settings, swaps);
            && |options| >= 1 && options[0] == LetterOption(UpperChar(LetterAt(g, p)[0]), None)
            && (forall i :: 0 <= i < |options| ==> OptionOk(g, settings, swaps, p, options[i]))
            && (forall i :: 1 <= i < |options| ==> options[i].swap.Some? && options[i].letter != options[0].letter)
            && (SwapAllowed(settings, swaps, p) ==>
                  forall m :: 0 <= m < |TopSwapLetters| && TopSwapLetters[m] != options[0].letter ==>
                    exists i :: 1 <= i < |options| && options[i].letter == TopSwapLetters[m])
            && (!SwapAllowed(settings, swaps, p) ==> |options| == 1)
  {
    var options := OptionsAt(g, p, settings, swaps);
    var letter := LetterAt(g, p);
    var original := UpperChar(letter[0]);
    assert [original] == Upper(letter);
    if SwapAllowed(settings, swaps, p) {
      var offers := SwapOffersTo(p, letter, original, |TopSwapLetters|);
      assert options == [options[0]] + offers;
      SwapOffersExact(g, p, original, |TopSwapLetters|, 0);
      forall i | 1 <= i < |options| ensures OptionOk(g, settings, swaps, p, options[i]) {
        assert options[i] == offers[i - 1];
        var l := options[i].letter;
        assert l == 'S' || l == 'R' || l == 'E' || l == 'A';
        assert Upper(letter) != [l];
      }
      forall m | 0 <= m < |TopSwapLetters| && TopSwapLetters[m] != original
        ensures exists i :: 1 <= i < |options| && options[i].letter == TopSwapLetters[m]
      {
        SwapOffersExact(g, p, original, |TopSwapLetters|, m);
        var i :| 0 <= i < |offers| && offers[i].letter == TopSwapLetters[m];
        assert options[i + 1] == offers[i];
      }
    }
  }

  // ---------------------------------------------------------------- search

  /** What the search knows about the word built so far: the path is a path, the
      word is what the path spells once its swaps are applied, and the running
      letter sum and word factor are those of the path. */
  ghost predicate WalkOk(g: Grid, settings: SolverSettings, word: string, path: seq<Position>,
                         swaps: seq<SwapInfo>, currentScore: int, wordMultiplier: int)
  {
    && IsPath(g, path)
    && |word| == |path|
    && SwapsOk(g, settings, swaps, path)
    && word == Spell(ApplySwaps(g, swaps), path)
    && currentScore == LetterSum(FixedTable, word, path, g)
    && wordMultiplier == WordMultiplier(path, g)
  }

  lemma SwapsStep(g: Grid, settings: SolverSettings, swaps: seq<SwapInfo>, path: seq<Position>,
                  p: Position, opt: LetterOption)
    requires SwapsOk(g, settings, swaps, path) && p !in path
    requires OptionOk(g, settings, swaps, p, opt)
    ensures SwapsOk(g, settings, SwapsAfter(swaps, opt), path + [p])
    ensures forall k :: 0 <= k < |swaps| ==> swaps[k].position != p
  {
    forall k | 0 <= k < |swaps| ensures swaps[k].position != p && swaps[k].position in path + [p] {
      assert swaps[k].position in path;
    }
    if opt.swap.Some? {
      var sw := opt.swap.value;
      var newSwaps := swaps + [sw];
      SwapsInGridExtend(g, swaps, sw);
      GemBudget(|swaps| + 1, settings.availableGems);
      forall k | 0 <= k < |newSwaps| ensures SwapOk(g, newSwaps[k]) && newSwaps[k].position in path + [p] {
        if k < |swaps| {
          assert newSwaps[k] == swaps[k];
        } else {
          assert newSwaps[k] == sw;
        }
      }
      DistinctPositionsExtend(swaps, sw);
    }
  }

  /** A swap on a cell no earlier swap touches keeps the swap cells distinct. */
  lemma DistinctPositionsExtend(swaps: seq<SwapInfo>, sw: SwapInfo)
    requires forall k, l :: 0 <= k < l < |swaps| ==> swaps[k].position != swaps[l].position
    requires forall k :: 0 <= k < |swaps| ==> swaps[k].position != sw.position
    ensures var s := swaps + [sw];
            forall k, l :: 0 <= k < l < |s| ==> s[k].position != s[l].position
  {
    var s := swaps + [sw];
    forall k, l | 0 <= k < l < |s| ensures s[k].position != s[l].position {
      assert s[k] == swaps[k];
      if l < |swaps| {
        assert s[l] == swaps[l];
      } else {
        assert s[l] == sw;
      }
    }
  }

  lemma SpellOption(g: Grid, settings: SolverSettings, word: string, swaps: seq<SwapInfo>, path: seq<Position>,
                    p: Position, opt: LetterOption)
    requires SwapsOk(g, settings, swaps, path) && p !in path && HasCell(g, p)
    requires OptionOk(g, settings, swaps, p, opt)
    requires word == Spell(ApplySwaps(g, swaps), path)
    ensures SwapsInGrid(g, SwapsAfter(swaps, opt))
    ensures word + [opt.letter] == Spell(ApplySwaps(g, SwapsAfter(swaps, opt)), path + [p])
  {
    SwapsStep(g, settings, swaps, path, p, opt);
    if opt.swap.Some? {
      SpellAppendSwapped(g, swaps, path, opt.swap.value);
      assert Upper(opt.swap.value.newLetter) == [opt.letter];
    } else {
      SpellAppendUntouched(g, swaps, path, p);
    }
  }

  /** One step of the walk: the option's letter on cell `p` extends every fact of WalkOk. */
  lemma StepWalk(g: Grid, settings: SolverSettings, word: string, path: seq<Position>, swaps: seq<SwapInfo>,
                 currentScore: int, wordMultiplier: int, p: Position, opt: LetterOption)
    requires WalkOk(g, settings, word, path, swaps, currentScore, wordMultiplier)
    requires HasCell(g, p) && p !in path && (path == [] || Adjacent(path[|path| - 1], p))
    requires OptionOk(g, settings, swaps, p, opt)
    ensures WalkOk(g, settings, word + [opt.letter], path + [p], SwapsAfter(swaps, opt),
                   currentScore + LetterPoints(FixedTable, opt.letter, MultAt(g, p)),
                   wordMultiplier * WordFactor(MultAt(g, p)))
  {
    PathExtend(g, path, p);
    LetterSumStep(FixedTable, word, path, g, opt.letter, p);
    SwapsStep(g, settings, swaps, path, p, opt);
    SpellOption(g, settings, word, swaps, path, p, opt);
  }

  /** An entry of the fixed variant's table. */
  ghost predicate EntryOk(g: Grid, dict: set<string>, settings: SolverSettings, e: FoundWord)
  {
    && e.word in dict
    && 3 <= |e.word|
    && |e.path| == |e.word|
    && IsPath(g, e.path)
    && SwapsOk(g, settings, e.swapsUsed, e.path)
    && e.word == Spell(ApplySwaps(g, e.swapsUsed), e.path)
    && e.score == Score(e.word, e.path, g, e.swapsUsed)
    && e.gemCost == GemCost(|e.swapsUsed|)
  }

  ghost predicate TableOk(m: map<string, FoundWord>, g: Grid, dict: set<string>, settings: SolverSettings)
  {
    KeyedByWord(m) && forall w {:trigger EntryOk(g, dict, settings, m[w])} :: w in m ==> EntryOk(g, dict, settings, m[w])
  }

  /** `topScore.value` is non-negative and at least every recorded score. */
  ghost predicate TopOk(m: map<string, FoundWord>, top: int)
  {
    top >= 0 && forall w :: w in m ==> m[w].score <= top
  }

  /** The pruning rule: from six letters on, skip the option when even a 20-letter word
      (length bonus 48) with no more letter points would stay under 70% of the top score. */
  predicate Pruned(len: int, newScore: int, newMultiplier: int, swapCount: int, top: int)
  {
    len >= 6 && 10 * (newScore * newMultiplier + (len + (MaxWordLength - len) - 4) * 3 - GemCost(swapCount)) < 7 * top
  }

  /** `findWordsFromPosition` of wordFinder-fixed.ts. */
  method FindWordsFromPosition(g: Grid, r: int, c: int, visited: array2<bool>, currentWord: string,
                               currentPath: seq<Position>, found: BestByWord, trie: Trie, node: nat,
                               settings: SolverSettings, currentSwaps: seq<SwapInfo>, currentScore: int,
                               wordMultiplier: int, top: TopScore)
    requires VisitedShape(visited, g) && InBounds(g, r, c) && !visited[r, c]
    requires WalkOk(g, settings, currentWord, currentPath, currentSwaps, currentScore, wordMultiplier)
    requires PathVisited(visited, g, currentPath)
    requires currentPath == [] || Adjacent(currentPath[|currentPath| - 1], Position(r, c))
    requires trie.Valid() && node < |trie.children| && trie.spelling[node] == currentWord
    requires TableOk(found.entries, g, trie.Words(), settings) && TopOk(found.entries, top.value)
    modifies visited, found, top
    decreases MaxWordLength - |currentWord|, 4
    ensures Marks(visited) == old(Marks(visited))
    ensures TableOk(found.entries, g, trie.Words(), settings) && TopOk(found.entries, top.value)
    ensures KeptOrImproved(old(found.entries), found.entries) && top.value >= old(top.value)
    ensures ChangedWithin(old(found.entries), found.entries, Max(MaxWordLength, |currentWord| + 1))
    ensures CellAt(g, r, c).None? || LetterAt(g, Position(r, c)) == "" ==>
      found.entries == old(found.entries) && top.value == old(top.value)
  {
    var p := Position(r, c);
    if c >= |g[r]| {
      return;
    }
    var cell := g[r][c];
    if cell.letter == "" {
      return;
    }
    var options := LettersToTry(g, p, settings, currentSwaps);
    OptionsAtOk(g, p, settings, currentSwaps);
    MarksFromPathVisited(visited, g, currentPath);
    assert Marks(visited)[r][c] == visited[r, c];
    var k := 0;
    while k < |options|
      invariant 0 <= k <= |options|
      invariant Marks(visited) == old(Marks(visited))
      invariant TableOk(found.entries, g, trie.Words(), settings) && TopOk(found.entries, top.value)
      invariant KeptOrImproved(old(found.entries), found.entries) && top.value >= old(top.value)
      invariant ChangedWithin(old(found.entries), found.entries, Max(MaxWordLength, |currentWord| + 1))
    {
      ghost var before := found.entries;
      PathVisitedFromMarks(visited, g, currentPath);
      assert Marks(visited)[r][c] == visited[r, c];
      TryLetter(g, r, c, visited, currentWord, currentPath, found, trie, node, settings, currentSwaps,
                currentScore, wordMultiplier, top, options[k]);
      KeptOrImprovedTransitive(old(found.entries), before, found.entries);
      ChangedWithinTransitive(old(found.entries), before, found.entries, Max(MaxWordLength, |currentWord| + 1));
      k := k + 1;
    }
  }

  /** One iteration of the `lettersToTry` loop: follow the letter's trie edge, if any. */
  method TryLetter(g: Grid, r: int, c: int, visited: array2<bool>, currentWord: string,
                   currentPath: seq<Position>, found: BestByWord, trie: Trie, node: nat,
                   settings: SolverSettings, currentSwaps: seq<SwapInfo>, currentScore: int,
                   wordMultiplier: int, top: TopScore, opt: LetterOption)
    requires VisitedShape(visited, g) && HasCell(g, Position(r, c)) && !visited[r, c]
    requires WalkOk(g, settings, currentWord, currentPath, currentSwaps, currentScore, wordMultiplier)
    requires PathVisited(visited, g, currentPath)
    requires currentPath == [] || Adjacent(currentPath[|currentPath| - 1], Position(r, c))
    requires OptionOk(g, settings, currentSwaps, Position(r, c), opt)
    requires trie.Valid() && node < |trie.children| && trie.spelling[node] == currentWord
    requires TableOk(found.entries, g, trie.Words(), settings) && TopOk(found.entries, top.value)
    modifies visited, found, top
    decreases MaxWordLength - |currentWord|, 3
    ensures Marks(visited) == old(Marks(visited))
    ensures TableOk(found.entries, g, trie.Words(), settings) && TopOk(found.entries, top.value)
    ensures KeptOrImproved(old(found.entries), found.entries) && top.value >= old(top.value)
    ensures ChangedWithin(old(found.entries), found.entries, Max(MaxWordLength, |currentWord| + 1))
    // no trie edge for the letter: nothing to do
    ensures Step(trie.children, node, opt.letter).None? ==>
      found.entries == old(found.entries) && top.value == old(top.value)
  {
    var nextNode := trie.GetChild(node, opt.letter);
    if nextNode.None? {
      return;
    }
    var next := nextNode.value;
    assert Step(trie.children, node, opt.letter) == Some(next);
    Advance(g, r, c, visited, currentWord, currentPath, found, trie, next, settings, currentSwaps,
            currentScore, wordMultiplier, top, opt);
  }

  /** The cell's letter extends the word: update the running sums, apply the pruning
      rule, then record and recurse. `next` is the trie node of the extended word. */
  method Advance(g: Grid, r: int, c: int, visited: array2<bool>, currentWord: string,
                 currentPath: seq<Position>, found: BestByWord, trie: Trie, next: nat,
                 settings: SolverSettings, currentSwaps: seq<SwapInfo>, currentScore: int,
                 wordMultiplier: int, top: TopScore, opt: LetterOption)
    requires VisitedShape(visited, g) && HasCell(g, Position(r, c)) && !visited[r, c]
    requires WalkOk(g, settings, currentWord, currentPath, currentSwaps, currentScore, wordMultiplier)
    requires PathVisited(visited, g, currentPath)
    requires currentPath == [] || Adjacent(currentPath[|currentPath| - 1], Position(r, c))
    requires OptionOk(g, settings, currentSwaps, Position(r, c), opt)
    requires trie.Valid() && next < |trie.children| && trie.spelling[next] == currentWord + [opt.letter]
    requires TableOk(found.entries, g, trie.Words(), settings) && TopOk(found.entries, top.value)
    modifies visited, found, top
    decreases MaxWordLength - |currentWord|, 2
    ensures Marks(visited) == old(Marks(visited))
    ensures TableOk(found.entries, g, trie.Words(), settings) && TopOk(found.entries, top.value)
    ensures KeptOrImproved(old(found.entries), found.entries) && top.value >= old(top.value)
    ensures ChangedWithin(old(found.entries), found.entries, Max(MaxWordLength, |currentWord| + 1))
  {
    var p := Position(r, c);
    var newWord := currentWord + [opt.letter];
    var newPath := currentPath + [p];
    var newSwaps := SwapsAfter(currentSwaps, opt);
    var newScore, newWordMultiplier := AddCell(g, p, opt.letter, currentScore, wordMultiplier);
    ExtendVisited(visited, g, currentPath, p);
    StepWalk(g, settings, currentWord, currentPath, currentSwaps, currentScore, wordMultiplier, p, opt);
    PruneOrRecord(g, r, c, visited, newWord, newPath, found, trie, next, settings,
                  newSwaps, newScore, newWordMultiplier, top);
  }

  /** The pruning test on the extended word's running sums; when it passes, record
      and recurse. */
  method PruneOrRecord(g: Grid, r: int, c: int, visited: array2<bool>, word: string,
                       path: seq<Position>, found: BestByWord, trie: Trie, node: nat,
                       settings: SolverSettings, swaps: seq<SwapInfo>, score: int,
                       wordMultiplier: int, top: TopScore)
    requires VisitedShape(visited, g) && InBounds(g, r, c) && !visited[r, c]
    requires WalkOk(g, settings, word, path, swaps, score, wordMultiplier)
    requires |path| > 0 && path[|path| - 1] == Position(r, c)
    requires forall i :: 0 <= i < |path| - 1 ==> visited[path[i].row, path[i].col]
    requires trie.Valid() && node < |trie.children| && trie.spelling[node] == word
    requires TableOk(found.entries, g, trie.Words(), settings) && TopOk(found.entries, top.value)
    modifies visited, found, top
    decreases MaxWordLength - |word| + 1, 1
    ensures Marks(visited) == old(Marks(visited))
    ensures TableOk(found.entries, g, trie.Words(), settings) && TopOk(found.entries, top.value)
    ensures KeptOrImproved(old(found.entries), found.entries) && top.value >= old(top.value)
    ensures ChangedWithin(old(found.entries), found.entries, Max(MaxWordLength, |word|))
    ensures Pruned(|word|, score, wordMultiplier, |swaps|, old(top.value)) ==>
      found.entries == old(found.entries) && top.value == old(top.value)
    ensures |word| >= 3 && trie.isEndOfWord[node] && !Pruned(|word|, score, wordMultiplier, |swaps|, old(top.value)) ==>
      word in found.entries && found.entries[word].score >= Score(word, path, g, swaps)
  {
    if Pruned(|word|, score, wordMultiplier, |swaps|, top.value) {
      return;
    }
    RecordAndExtend(g, r, c, visited, word, path, found, trie, node, settings,
                    swaps, score, wordMultiplier, top);
  }

  /** The multiplier `switch` on the new cell: DL and TL scale the letter's value,
      DW and TW the word factor. */
  method AddCell(g: Grid, p: Position, letter: char, currentScore: int, wordMultiplier: int)
    returns (newScore: int, newWordMultiplier: int)
    requires HasCell(g, p) && UpperChar(letter) == letter
    ensures newScore == currentScore + LetterPoints(FixedTable, letter, MultAt(g, p))
    ensures newWordMultiplier == wordMultiplier * WordFactor(MultAt(g, p))
  {
    var letterScore := LetterScore(FixedTable, [letter]);
    var cell := g[p.row][p.col];
    assert cell.multiplier == MultAt(g, p);
    letterScore, newWordMultiplier := ApplyCellMultiplier(cell.multiplier, letterScore, wordMultiplier);
    newScore := currentScore + letterScore;
  }

  /** What follows the pruning test: record the word when the trie marks it as one
      (three letters or more), then continue from its cell while it is shorter than 20. */
  method RecordAndExtend(g: Grid, r: int, c: int, visited: array2<bool>, word: string,
                         path: seq<Position>, found: BestByWord, trie: Trie, node: nat,
                         settings: SolverSettings, swaps: seq<SwapInfo>, score: int,
                         wordMultiplier: int, top: TopScore)
    requires VisitedShape(visited, g) && InBounds(g, r, c) && !visited[r, c]
    requires WalkOk(g, settings, word, path, swaps, score, wordMultiplier)
    requires |path| > 0 && path[|path| - 1] == Position(r, c)
    requires forall i :: 0 <= i < |path| - 1 ==> visited[path[i].row, path[i].col]
    requires trie.Valid() && node < |trie.children| && trie.spelling[node] == word
    requires TableOk(found.entries, g, trie.Words(), settings) && TopOk(found.entries, top.value)
    modifies visited, found, top
    decreases MaxWordLength - |word| + 1, 0
    ensures Marks(visited) == old(Marks(visited))
    ensures TableOk(found.entries, g, trie.Words(), settings) && TopOk(found.entries, top.value)
    ensures KeptOrImproved(old(found.entries), found.entries) && top.value >= old(top.value)
    ensures ChangedWithin(old(found.entries), found.entries, Max(MaxWordLength, |word|))
    ensures |word| >= 3 && trie.isEndOfWord[node] ==>
      word in found.entries && found.entries[word].score >= Score(word, path, g, swaps)
  {
    WordAtNode(trie, node);
    ghost var best := Score(word, path, g, swaps);
    ghost var m0 := found.entries;
    RecordIfWord(found, top, word, path, swaps, score, wordMultiplier, trie.isEndOfWord[node], g, trie.Words(), settings);
    ghost var m1 := found.entries;
    if |word| < MaxWordLength {
      ExploreNeighbours(g, r, c, visited, word, path, found, trie, node, settings,
                        swaps, score, wordMultiplier, top);
      DescendFacts(m0, m1, found.entries, word, best, |word| >= 3 && trie.isEndOfWord[node]);
    } else {
      DescendFacts(m0, m1, m1, word, best, |word| >= 3 && trie.isEndOfWord[node]);
    }
  }

  lemma DescendFacts(m0: map<string, FoundWord>, m1: map<string, FoundWord>, m2: map<string, FoundWord>,
                     word: string, best: int, recorded: bool)
    requires KeptOrImproved(m0, m1) && ChangedWithin(m0, m1, |word|)
    requires KeptOrImproved(m1, m2) && ChangedWithin(m1, m2, MaxWordLength)
    requires recorded ==> word in m1 && m1[word].score >= best
    ensures KeptOrImproved(m0, m2) && ChangedWithin(m0, m2, Max(MaxWordLength, |word|))
    ensures recorded ==> word in m2 && m2[word].score >= best
  {
    KeptOrImprovedTransitive(m0, m1, m2);
    ChangedWithinWeaken(m0, m1, |word|, Max(MaxWordLength, |word|));
    ChangedWithinWeaken(m1, m2, MaxWordLength, Max(MaxWordLength, |word|));
    ChangedWithinTransitive(m0, m1, m2, Max(MaxWordLength, |word|));
  }

  lemma WordAtNode(trie: Trie, node: nat)
    requires trie.Valid() && node < |trie.children|
    ensures trie.isEndOfWord[node] ==> trie.spelling[node] in trie.Words()
  {
  }

  /** The recording block: a word of three letters or more that the trie marks is
      scored from the running sums and offered to the table. */
  method RecordIfWord(found: BestByWord, top: TopScore, word: string, path: seq<Position>,
                      swaps: seq<SwapInfo>, score: int, wordMultiplier: int, isWord: bool,
                      ghost g: Grid, ghost dict: set<string>, ghost settings: SolverSettings)
    requires WalkOk(g, settings, word, path, swaps, score, wordMultiplier)
    requires isWord ==> word in dict
    requires TableOk(found.entries, g, dict, settings) && TopOk(found.entries, top.value)
    modifies found, top
    ensures TableOk(found.entries, g, dict, settings) && TopOk(found.entries, top.value)
    ensures KeptOrImproved(old(found.entries), found.entries) && top.value >= old(top.value)
    ensures ChangedWithin(old(found.entries), found.entries, |word|)
    ensures |word| >= 3 && isWord ==>
      word in found.entries && found.entries[word].score >= Score(word, path, g, swaps)
    ensures !(|word| >= 3 && isWord) ==> found.entries == old(found.entries) && top.value == old(top.value)
  {
    if |word| >= 3 && isWord {
      var finalScore := score * wordMultiplier + LengthBonus(|word|) - GemCost(|swaps|);
      var roundedScore := Max(0, finalScore);
      assert path[..|word|] == path;
      assert roundedScore == Score(word, path, g, swaps);
      var entry := FoundWord(word, path, roundedScore, swaps, GemCost(|swaps|));
      RecordWord(found, top, entry, g, dict, settings);
    }
  }

  /** Lines that store an entry when it beats the one already held, and raise the top score. */
  method RecordWord(found: BestByWord, top: TopScore, entry: FoundWord,
                    ghost g: Grid, ghost dict: set<string>, ghost settings: SolverSettings)
    requires EntryOk(g, dict, settings, entry)
    requires TableOk(found.entries, g, dict, settings) && TopOk(found.entries, top.value)
    modifies found, top
    ensures TableOk(found.entries, g, dict, settings) && TopOk(found.entries, top.value)
    ensures KeptOrImproved(old(found.entries), found.entries) && top.value >= old(top.value)
    ensures ChangedWithin(old(found.entries), found.entries, |entry.word|)
    ensures entry.word in found.entries && found.entries[entry.word].score >= entry.score
  {
    ghost var m0, t0 := found.entries, top.value;
    var stored := found.Offer(entry);
    if stored {
      StoreKeepsTable(m0, g, dict, settings, entry);
      if entry.score > top.value {
        top.value := entry.score;
      }
      StoreKeepsTop(m0, t0, entry, top.value);
    }
  }

  lemma StoreKeepsTable(m: map<string, FoundWord>, g: Grid, dict: set<string>, settings: SolverSettings, e: FoundWord)
    requires TableOk(m, g, dict, settings) && EntryOk(g, dict, settings, e)
    ensures TableOk(m[e.word := e], g, dict, settings)
    ensures ChangedWithin(m, m[e.word := e], |e.word|)
  {
  }

  lemma StoreKeepsTop(m: map<string, FoundWord>, top: int, e: FoundWord, newTop: int)
    requires TopOk(m, top) && newTop >= top && newTop >= e.score
    ensures TopOk(m[e.word := e], newTop)
  {
  }

  /** The `DIRECTIONS` loop: mark the cell, search every valid neighbour, unmark it. */
  method ExploreNeighbours(g: Grid, r: int, c: int, visited: array2<bool>, word: string,
                           path: seq<Position>, found: BestByWord, trie: Trie, node: nat,
                           settings: SolverSettings, swaps: seq<SwapInfo>, score: int,
                           wordMultiplier: int, top: TopScore)
    requires VisitedShape(visited, g) && InBounds(g, r, c) && !visited[r, c]
    requires WalkOk(g, settings, word, path, swaps, score, wordMultiplier)
    requires |path| > 0 && path[|path| - 1] == Position(r, c)
    requires forall i :: 0 <= i < |path| - 1 ==> visited[path[i].row, path[i].col]
    requires trie.Valid() && node < |trie.children| && trie.spelling[node] == word
    requires TableOk(found.entries, g, trie.Words(), settings) && TopOk(found.entries, top.value)
    requires |word| < MaxWordLength
    modifies visited, found, top
    decreases MaxWordLength - |word|, 7
    ensures Marks(visited) == old(Marks(visited))
    ensures TableOk(found.entries, g, trie.Words(), settings) && TopOk(found.entries, top.value)
    ensures KeptOrImproved(old(found.entries), found.entries) && top.value >= old(top.value)
    ensures ChangedWithin(old(found.entries), found.entries, MaxWordLength)
  {
    ghost var start := Marks(visited);
    assert start[r][c] == visited[r, c];
    SetMark(visited, r, c, true);
    ghost var marked := Marks(visited);
    assert MarkedPath(marked, path) by {
      forall i | 0 <= i < |path| ensures marked[path[i].row][path[i].col] {
        assert marked[path[i].row][path[i].col] == visited[path[i].row, path[i].col];
      }
    }
    ExploreDirections(g, r, c, visited, word, path, found, trie, node, settings, swaps, score, wordMultiplier, top);
    SetMark(visited, r, c, false);
    MarkUndo(start, r, c);
  }

  /** The `DIRECTIONS` loop itself, with the current cell already marked. */
  method ExploreDirections(g: Grid, r: int, c: int, visited: array2<bool>, word: string,
                           path: seq<Position>, found: BestByWord, trie: Trie, node: nat,
                           settings: SolverSettings, swaps: seq<SwapInfo>, score: int,
                           wordMultiplier: int, top: TopScore)
    requires VisitedShape(visited, g)
    requires WalkOk(g, settings, word, path, swaps, score, wordMultiplier)
    requires |path| > 0 && path[|path| - 1] == Position(r, c)
    requires MarkedPath(Marks(visited), path)
    requires trie.Valid() && node < |trie.children| && trie.spelling[node] == word
    requires TableOk(found.entries, g, trie.Words(), settings) && TopOk(found.entries, top.value)
    requires |word| < MaxWordLength
    modifies visited, found, top
    decreases MaxWordLength - |word|, 6
    ensures Marks(visited) == old(Marks(visited))
    ensures TableOk(found.entries, g, trie.Words(), settings) && TopOk(found.entries, top.value)
    ensures KeptOrImproved(old(found.entries), found.entries) && top.value >= old(top.value)
    ensures ChangedWithin(old(found.entries), found.entries, MaxWordLength)
  {
    ghost var marked := Marks(visited);
    var d := 0;
    while d < |Directions|
      invariant 0 <= d <= |Directions|
      invariant Marks(visited) == marked
      invariant TableOk(found.entries, g, trie.Words(), settings) && TopOk(found.entries, top.value)
      invariant KeptOrImproved(old(found.entries), found.entries) && top.value >= old(top.value)
      invariant ChangedWithin(old(found.entries), found.entries, MaxWordLength)
    {
      ghost var before := found.entries;
      PathVisitedFromMarks(visited, g, path);
      ExploreDirection(g, r, c, d, visited, word, path, found, trie, node, settings, swaps, score, wordMultiplier, top);
      KeptOrImprovedTransitive(old(found.entries), before, found.entries);
      ChangedWithinTransitive(old(found.entries), before, found.entries, MaxWordLength);
      d := d + 1;
    }
  }

  /** One direction of the loop: the neighbour is searched when `isValidPosition` accepts it. */
  method ExploreDirection(g: Grid, r: int, c: int, d: nat, visited: array2<bool>, word: string,
                          path: seq<Position>, found: BestByWord, trie: Trie, node: nat,
                          settings: SolverSettings, swaps: seq<SwapInfo>, score: int,
                          wordMultiplier: int, top: TopScore)
    requires VisitedShape(visited, g) && d < |Directions|
    requires WalkOk(g, settings, word, path, swaps, score, wordMultiplier)
    requires |path| > 0 && path[|path| - 1] == Position(r, c)
    requires PathVisited(visited, g, path)
    requires trie.Valid() && node < |trie.children| && trie.spelling[node] == word
    requires TableOk(found.entries, g, trie.Words(), settings) && TopOk(found.entries, top.value)
    requires |word| < MaxWordLength
    modifies visited, found, top
    decreases MaxWordLength - |word|, 5
    ensures Marks(visited) == old(Marks(visited))
    ensures TableOk(found.entries, g, trie.Words(), settings) && TopOk(found.entries, top.value)
    ensures KeptOrImproved(old(found.entries), found.entries) && top.value >= old(top.value)
    ensures ChangedWithin(old(found.entries), found.entries, MaxWordLength)
    ensures var q := Neighbour(Position(r, c), d);
            old(!IsValidPosition(q.row, q.col, g, visited)) ==>
      found.entries == old(found.entries) && top.value == old(top.value)
  {
    var q := Neighbour(Position(r, c), d);
    if IsValidPosition(q.row, q.col, g, visited) {
      NeighboursAreAdjacent(Position(r, c), q);
      FindWordsFromPosition(g, q.row, q.col, visited, word, path, found, trie, node, settings,
                            swaps, score, wordMultiplier, top);
    }
  }

  // --------------------------------------------------------------- driver

  /** A start cell with its priority. */
  datatype StartCell = StartCell(position: Position, priority: int)

  /** The priority boost of a multiplier cell. */
  function PriorityBoost(m: Multiplier): int
  {
    match m
    case TW => 50
    case DW => 30
    case TL => 20
    case DL => 10
    case NoMultiplier => 0
  }

  /** Letter value plus the multiplier boost. */
  function Priority(g: Grid, p: Position): int
  {
    LetterScore(FixedTable, Upper(LetterAt(g, p))) + PriorityBoost(MultAt(g, p))
  }

  function StartKey(s: StartCell): Key
  {
    Key(s.priority, 0)
  }

  /** An occupied cell of the scanned rectangle with its priority. */
  ghost predicate StartOk(g: Grid, sc: StartCell)
  {
    var q := sc.position;
    InBounds(g, q.row, q.col) && Occupied(g, q.row, q.col) && sc.priority == Priority(g, q)
  }

  /** Joining two lists without repeats that share no element gives a list without repeats. */
  lemma AppendNoDup<T>(a: seq<T>, b: seq<T>)
    requires NoDup(a) && NoDup(b) && forall x :: x in a ==> x !in b
    ensures NoDup(a + b)
  {
    var s := a + b;
    forall i, j | 0 <= i < j < |s| ensures s[i] != s[j] {
      if j < |a| {
        assert s[i] == a[i] && s[j] == a[j];
      } else if i < |a| {
        assert s[i] == a[i] && s[j] == b[j - |a|] && s[i] in a;
      } else {
        assert s[i] == b[i - |a|] && s[j] == b[j - |a|];
      }
    }
  }

  /** The inner loop of the `positions` scan over row `row`: it collects exactly the
      occupied cells of that row, each once, with its priority. */
  method ScanRow(g: Grid, row: int) returns (cells: seq<StartCell>)
    requires 0 <= row < |g|
    ensures forall x :: x in cells <==> StartOk(g, x) && x.position.row == row
    ensures NoDup(cells)
  {
    cells := [];
    var col := 0;
    while col < |g[0]|
      invariant 0 <= col <= |g[0]|
      invariant forall x :: x in cells <==> StartOk(g, x) && x.position.row == row && x.position.col < col
      invariant NoDup(cells)
    {
      if col < |g[row]| {
        var cell := g[row][col];
        if cell.letter != "" && !IsBlank(cell.letter) {
          var priority := LetterScore(FixedTable, Upper(cell.letter));
          match cell.multiplier {
            case TW => priority := priority + 50;
            case DW => priority := priority + 30;
            case TL => priority := priority + 20;
            case DL => priority := priority + 10;
            case NoMultiplier =>
          }
          var sc := StartCell(Position(row, col), priority);
          assert StartOk(g, sc);
          AppendNoDup(cells, [sc]);
          cells := cells + [sc];
        }
      }
      col := col + 1;
    }
  }

  /** The `positions` array of `findAllWords`: every occupied cell once, each with its
      priority, in descending order of priority. */
  method StartPositions(g: Grid) returns (positions: seq<StartCell>)
    ensures forall x :: x in positions <==> StartOk(g, x)
    ensures SortedBy(positions, StartKey)
    ensures forall i, j :: 0 <= i < j < |positions| ==> positions[i].position != positions[j].position
  {
    var cells: seq<StartCell> := [];
    var row := 0;
    while row < |g|
      invariant 0 <= row <= |g|
      invariant forall x :: x in cells <==> StartOk(g, x) && x.position.row < row
      invariant NoDup(cells)
    {
      var rowCells := ScanRow(g, row);
      AppendNoDup(cells, rowCells);
      cells := cells + rowCells;
      row := row + 1;
    }
    positions := SortBy(cells, StartKey);
    forall x ensures x in positions <==> StartOk(g, x) {
      assert x in positions <==> x in multiset(positions);
      assert x in cells <==> x in multiset(cells);
    }
    forall i, j | 0 <= i < j < |positions| ensures positions[i].position != positions[j].position {
      // two slots hold different cells, and a listed cell is fixed by its position
      assert positions[i] != positions[j];
      assert positions[i] in positions && positions[j] in positions;
    }
  }

  /** `findAllWords` of wordFinder-fixed.ts. `cutoff` is how many start cells the three-second
      deadline lets the search process; the dictionary is the word list. */
  method FindAllWords(g: Grid, settings: SolverSettings, words: seq<string>, cutoff: nat) returns (results: seq<FoundWord>)
    ensures |g| == 0 || |g[0]| == 0 ==> results == []
    ensures Ranked(results) && DistinctWords(results)
    ensures forall i :: 0 <= i < |results| ==>
      EntryOk(g, UpperWords(words), settings, results[i]) && |results[i].word| <= MaxWordLength
  {
    if |g| == 0 || |g[0]| == 0 {
      return [];
    }
    var found := new BestByWord();
    var trie := BuildTrie(words);
    var top := new TopScore();
    var positions := StartPositions(g);
    var k := 0;
    while k < |positions| && k < cutoff
      invariant 0 <= k <= |positions|
      invariant trie.Valid() && trie.Words() == UpperWords(words)
      invariant TableOk(found.entries, g, trie.Words(), settings) && TopOk(found.entries, top.value)
      invariant forall w :: w in found.entries ==> |w| <= MaxWordLength
    {
      assert StartOk(g, positions[k]);
      SearchFromStart(g, settings, positions[k].position, found, trie, top);
      k := k + 1;
    }
    results := RankedValues(found.entries);
    forall i | 0 <= i < |results|
      ensures EntryOk(g, UpperWords(words), settings, results[i]) && |results[i].word| <= MaxWordLength
    {
      assert found.entries[results[i].word] == results[i];
    }
  }

  /** One pass of the `positions` loop: a fresh `visited` matrix and a search from `pos`
      with the empty word. */
  method SearchFromStart(g: Grid, settings: SolverSettings, pos: Position, found: BestByWord, trie: Trie, top: TopScore)
    requires InBounds(g, pos.row, pos.col) && trie.Valid()
    requires TableOk(found.entries, g, trie.Words(), settings) && TopOk(found.entries, top.value)
    requires forall w :: w in found.entries ==> |w| <= MaxWordLength
    modifies found, top
    ensures TableOk(found.entries, g, trie.Words(), settings) && TopOk(found.entries, top.value)
    ensures forall w :: w in found.entries ==> |w| <= MaxWordLength
    ensures KeptOrImproved(old(found.entries), found.entries) && top.value >= old(top.value)
  {
    var visited := new bool[|g|, |g[0]|]((i, j) => false);
    WalkStart(g, settings);
    FindWordsFromPosition(g, pos.row, pos.col, visited, "", [], found, trie, 0, settings, [], 0, 1, top);
  }

  /** The search starts from the empty word on the empty path. */
  lemma WalkStart(g: Grid, settings: SolverSettings)
    ensures WalkOk(g, settings, "", [], [], 0, 1)
  {
  }
}
