/** wordFinder-new.ts, the minimal solver: a depth-first search over the grid
    that checks each spelled word against the dictionary set, keeps the first
    path found for each word, scores words by their letters alone, and ranks
    the results. There are no cell multipliers, no swaps and no pruning. */
module SetSearch {
  import opened Types
  import opened GridModel
  import opened Scoring
  import opened Ranking
  import PrefixSearch

  /** Words grow past this length only through a caller's longer `currentWord`. */
  const MaxWordLength := 12

  /** The guard against runaway recursion: a `currentWord` this long stops the search. */
  const RecursionGuard := 20

  // ---------------------------------------------------------------- score

  /** What `calculateScore` computes: the plain letter total, scaled for length and rounded. */
  function Score(word: string): int
  {
    LengthScaled(LetterTotal(LegacyTable, word), |word|)
  }

  /** `calculateScore`: one pass over the letters, then the length multipliers and
      `Math.round`. The path argument is never read. */
  method CalculateScore(word: string, path: seq<Position>) returns (score: int)
    ensures score == Score(word)
  {
    score := 0;
    var i := 0;
    while i < |word|
      invariant 0 <= i <= |word|
      invariant score == LetterTotalTo(LegacyTable, word, i)
    {
      score := score + LetterScore(LegacyTable, [UpperChar(word[i])]);
      i := i + 1;
    }
    assert score == LetterTotal(LegacyTable, word);
    score := ScaleAndRound(score, |word|);
  }

  /** Every word scores at least one point per letter. */
  lemma ScoreAtLeastLength(word: string)
    ensures Score(word) >= |word|
  {
    LetterTotalAtLeastLength(LegacyTable, word, |word|);
    LengthFactorAtLeastOne(|word|);
    RoundedScaleAtLeast(LetterTotal(LegacyTable, word), LengthFactor(|word|), |word|);
  }

  /** The score does not depend on letter case. */
  lemma ScoreIgnoresCase(word: string)
    ensures Score(Upper(word)) == Score(word)
  {
    LetterTotalUpper(LegacyTable, word, |word|);
  }

  /** On a path without multiplier cells, the scores of wordFinder.ts and of this
      variant agree. */
  lemma ScoreAgreesWithoutMultipliers(word: string, path: seq<Position>, g: Grid)
    requires |word| <= |path|
    requires forall i :: 0 <= i < |word| ==> MultAt(g, path[i]) == NoMultiplier
    ensures PrefixSearch.Score(word, path, g) == Score(word)
  {
    LetterSumWithoutMultipliers(LegacyTable, word, path, g, |word|);
    WordMultiplierWithoutMultipliers(path, g, |word|);
  }

  /** CAT is worth 3 + 1 + 1; HELLO is worth 8 points times 1.2, rounded to 10. */
  lemma ScoreExamples()
    ensures Score("CAT") == 5 && Score("HELLO") == 10 && Score("hello") == 10
  {
    assert LetterTotal(LegacyTable, "CAT") == 5;
    assert LetterTotal(LegacyTable, "HELLO") == 8;
    assert LetterTotal(LegacyTable, "hello") == 8;
  }

  // ---------------------------------------------------- the found-words list

  /** `foundWords.find(w => w.word === word)` on the entries from index `k` on. */
  function FindFrom(s: seq<FoundWord>, word: string, k: nat): (r: Option<FoundWord>)
    requires k <= |s|
    ensures r.None? <==> forall i :: k <= i < |s| ==> s[i].word != word
    ensures r.Some? ==> (r.value.word == word &&
      exists i :: k <= i < |s| && s[i] == r.value && forall j :: k <= j < i ==> s[j].word != word)
    decreases |s| - k
  {
    if k == |s| then None
    else if s[k].word == word then Some(s[k])
    else FindFrom(s, word, k + 1)
  }

  /** The `foundWords` array the search pushes onto. */
  class FoundList {
    var items: seq<FoundWord>

    constructor ()
      ensures items == []
    {
      items := [];
    }

    /** `find`: the first entry with this word, None when there is none. */
    function Find(word: string): (r: Option<FoundWord>)
      reads this
      ensures r.None? <==> forall i :: 0 <= i < |items| ==> items[i].word != word
      ensures r.Some? ==> (r.value.word == word &&
        exists i :: 0 <= i < |items| && items[i] == r.value && FirstOccurrence(items, i))
    {
      FindFrom(items, word, 0)
    }

    /** `push`. */
    method Push(e: FoundWord)
      modifies this
      ensures items == old(items) + [e]
    {
      items := items + [e];
    }
  }

  // ----------------------------------------------------------- invariants

  /** The word and path built so far: a grid path over non-blank cells spelling `word`. */
  ghost predicate WalkSoFar(g: Grid, word: string, path: seq<Position>)
  {
    && IsPath(g, path)
    && (forall k :: 0 <= k < |path| ==> Occupied(g, path[k].row, path[k].col))
    && |word| == |path|
    && word == Spell(g, path)
  }

  /** An entry as the search pushes it: a dictionary word of at least three letters
      spelled along its path, its letter score, no swaps and no gem cost. */
  ghost predicate EntryOk(g: Grid, words: set<string>, e: FoundWord)
  {
    && e.word in words
    && 3 <= |e.word|
    && WalkSoFar(g, e.word, e.path)
    && e.score == Score(e.word)
    && e.swapsUsed == []
    && e.gemCost == 0
  }

  /** Every entry from index `lo` on is well formed and at most `cap` letters long. */
  ghost predicate NewEntriesOk(g: Grid, words: set<string>, items: seq<FoundWord>, lo: int, cap: int)
  {
    forall i :: 0 <= lo <= i < |items| ==> EntryOk(g, words, items[i]) && |items[i].word| <= cap
  }

  lemma NewEntriesChain(g: Grid, words: set<string>, a: seq<FoundWord>, b: seq<FoundWord>,
                        c: seq<FoundWord>, cap: int)
    requires a <= b <= c
    requires NewEntriesOk(g, words, b, |a|, cap) && NewEntriesOk(g, words, c, |b|, cap)
    ensures NewEntriesOk(g, words, c, |a|, cap)
  {
    forall i | |a| <= i < |c| ensures EntryOk(g, words, c[i]) && |c[i].word| <= cap {
      if i < |b| {
        assert c[i] == b[i];
      }
    }
  }

  /** Some entry carries word `u`. */
  ghost predicate Covered(items: seq<FoundWord>, u: string)
  {
    exists i :: 0 <= i < |items| && items[i].word == u
  }

  /** Entries are only ever appended, so a word once listed stays listed. */
  lemma CoveredGrows(a: seq<FoundWord>, b: seq<FoundWord>, u: string)
    requires a <= b && Covered(a, u)
    ensures Covered(b, u)
  {
    var i :| 0 <= i < |a| && a[i].word == u;
    assert b[i] == a[i];
  }

  /** Cell `q` is inside the matrix `m` and not marked. */
  ghost predicate Unmarked(m: seq<seq<bool>>, q: Position)
  {
    0 <= q.row < |m| && 0 <= q.col < |m[q.row]| && !m[q.row][q.col]
  }

  /** A possible continuation of the search: `ext` is a path through non-blank cells
      that are not marked in `m` and not on `path`, and it starts next to the end of `path`. */
  ghost predicate Walk(g: Grid, m: seq<seq<bool>>, path: seq<Position>, ext: seq<Position>)
  {
    && ext != []
    && IsPath(g, ext)
    && (path != [] ==> Adjacent(path[|path| - 1], ext[0]))
    && forall k :: 0 <= k < |ext| ==>
         ext[k] !in path && Occupied(g, ext[k].row, ext[k].col) && Unmarked(m, ext[k])
  }

  /** The continuation spells a dictionary word of 3 to 12 letters after `word`. */
  ghost predicate WordAlong(g: Grid, words: set<string>, word: string, ext: seq<Position>)
  {
    3 <= |word| + |ext| <= MaxWordLength && word + Spell(g, ext) in words
  }

  /** A continuation starts at an inside, non-blank, unmarked cell next to the path's
      end, and spells one letter per cell. */
  lemma WalkStarts(g: Grid, m: seq<seq<bool>>, path: seq<Position>)
    ensures forall ext: seq<Position> :: Walk(g, m, path, ext) ==>
      && HasCell(g, ext[0]) && Occupied(g, ext[0].row, ext[0].col) && Unmarked(m, ext[0])
      && (path != [] ==> Adjacent(path[|path| - 1], ext[0]))
      && |Spell(g, ext)| == |ext|
  {
    forall ext: seq<Position> | Walk(g, m, path, ext) ensures |Spell(g, ext)| == |ext| {
      SpellLength(g, ext, |ext|);
    }
  }

  /** A continuation is its first cell followed by a continuation of the longer path. */
  lemma WalkSplit(g: Grid, m: seq<seq<bool>>, path: seq<Position>, ext: seq<Position>)
    requires Walk(g, m, path, ext)
    ensures Spell(g, ext) == Upper(LetterAt(g, ext[0])) + Spell(g, ext[1..])
    ensures |ext| > 1 ==> Walk(g, m, path + [ext[0]], ext[1..])
  {
    var rest := ext[1..];
    SpellHead(g, ext);
    if |ext| > 1 {
      PathTail(g, ext);
      forall k | 0 <= k < |rest| ensures rest[k] !in path + [ext[0]] {
        assert rest[k] == ext[k + 1];
      }
    }
  }

  lemma SpellHead(g: Grid, ext: seq<Position>)
    requires ext != []
    ensures Spell(g, ext) == Upper(LetterAt(g, ext[0])) + Spell(g, ext[1..])
  {
    assert ext == [ext[0]] + ext[1..];
    SpellConcat(g, [ext[0]], ext[1..]);
    SpellStep(g, [], ext[0]);
    assert [] + [ext[0]] == [ext[0]];
  }

  /** A continuation from `p` either ends at `p`, and then spells the word built there,
      or goes on as a continuation of the path extended by `p`, spelling the same word. */
  lemma ContinueWalk(g: Grid, words: set<string>, m: seq<seq<bool>>, word: string,
                     path: seq<Position>, p: Position, ext: seq<Position>)
    requires Walk(g, m, path, ext) && ext[0] == p && WordAlong(g, words, word, ext)
    ensures var newWord := word + Upper(LetterAt(g, p));
      && (|ext| == 1 ==> word + Spell(g, ext) == newWord && |newWord| >= 3 && newWord in words)
      && (|ext| > 1 ==> Walk(g, m, path + [p], ext[1..]) && WordAlong(g, words, newWord, ext[1..]) &&
                        newWord + Spell(g, ext[1..]) == word + Spell(g, ext))
  {
    WalkSplit(g, m, path, ext);
    OccupiedLetter(g, p);
    var a, b, rest := word, Upper(LetterAt(g, p)), ext[1..];
    assert a + (b + Spell(g, rest)) == (a + b) + Spell(g, rest);
    if |ext| == 1 {
      assert Spell(g, rest) == "";
      assert (a + b) + "" == a + b;
    }
  }

  /** Marking the path's last cell keeps every continuation available: none revisits it. */
  lemma WalkAfterMark(g: Grid, m: seq<seq<bool>>, path: seq<Position>, r: int, c: int)
    requires path != [] && path[|path| - 1] == Position(r, c)
    requires 0 <= r < |m| && 0 <= c < |m[r]|
    ensures forall ext: seq<Position> :: Walk(g, m, path, ext) ==> Walk(g, m[r := m[r][c := true]], path, ext)
  {
    assert Position(r, c) in path;
  }

  // --------------------------------------------------------------- search

  /** `findWordsFromPosition`. It returns at once when the start is outside the grid,
      already visited or blank, or when `currentWord` has reached 20 letters. Otherwise
      it records `currentWord` plus the upper-cased letter if that is a new dictionary
      word, and when the word is still shorter than 12 letters it marks the cell,
      searches its valid neighbours and unmarks it. It finds every dictionary word of
      up to 12 letters that some unvisited continuation from this cell spells. */
  method FindWordsFromPosition(g: Grid, startRow: int, startCol: int, visited: array2<bool>,
                               currentWord: string, currentPath: seq<Position>,
                               words: set<string>, foundWords: FoundList)
    requires VisitedShape(visited, g)
    requires WalkSoFar(g, currentWord, currentPath) && PathVisited(visited, g, currentPath)
    requires currentPath == [] || Adjacent(currentPath[|currentPath| - 1], Position(startRow, startCol))
    modifies visited, foundWords
    decreases MaxWordLength - |currentWord|, 1
    ensures Marks(visited) == old(Marks(visited))
    ensures old(foundWords.items) <= foundWords.items
    ensures DistinctWords(old(foundWords.items)) ==> DistinctWords(foundWords.items)
    ensures NewEntriesOk(g, words, foundWords.items, |old(foundWords.items)|,
                         Max(MaxWordLength, |currentWord| + 1))
    // the early returns change nothing
    ensures !InBounds(g, startRow, startCol) || old(visited[startRow, startCol]) ||
            !Occupied(g, startRow, startCol) || |currentWord| >= RecursionGuard ==>
      foundWords.items == old(foundWords.items)
    // every word a continuation from this cell spells is listed
    ensures forall ext: seq<Position> ::
      (Walk(g, old(Marks(visited)), currentPath, ext) && ext[0] == Position(startRow, startCol) &&
       WordAlong(g, words, currentWord, ext)) ==>
      Covered(foundWords.items, currentWord + Spell(g, ext))
  {
    ghost var m0 := Marks(visited);
    WalkStarts(g, m0, currentPath);
    if startRow < 0 || startRow >= |g| || startCol < 0 || startCol >= |g[0]| {
      return;
    }
    assert m0[startRow][startCol] == visited[startRow, startCol];
    if visited[startRow, startCol] {
      return;
    }
    var cell := CellAt(g, startRow, startCol);
    if cell.None? || cell.value.letter == "" || IsBlank(cell.value.letter) {
      return;
    }
    if |currentWord| >= RecursionGuard {
      return;
    }
    VisitCell(g, startRow, startCol, visited, currentWord, currentPath, words, foundWords);
  }

  /** The body of `findWordsFromPosition` once the cell passed the early returns: extend
      the word and path, record the word, and search the neighbours while it is shorter
      than the maximum length. */
  method VisitCell(g: Grid, startRow: int, startCol: int, visited: array2<bool>,
                   currentWord: string, currentPath: seq<Position>,
                   words: set<string>, foundWords: FoundList)
    requires VisitedShape(visited, g) && InBounds(g, startRow, startCol)
    requires !visited[startRow, startCol] && Occupied(g, startRow, startCol)
    requires WalkSoFar(g, currentWord, currentPath) && PathVisited(visited, g, currentPath)
    requires currentPath == [] || Adjacent(currentPath[|currentPath| - 1], Position(startRow, startCol))
    requires |currentWord| < RecursionGuard
    modifies visited, foundWords
    decreases MaxWordLength - |currentWord|, 0
    ensures Marks(visited) == old(Marks(visited))
    ensures old(foundWords.items) <= foundWords.items
    ensures DistinctWords(old(foundWords.items)) ==> DistinctWords(foundWords.items)
    ensures NewEntriesOk(g, words, foundWords.items, |old(foundWords.items)|,
                         Max(MaxWordLength, |currentWord| + 1))
    ensures forall ext: seq<Position> ::
      (Walk(g, old(Marks(visited)), currentPath, ext) && ext[0] == Position(startRow, startCol) &&
       WordAlong(g, words, currentWord, ext)) ==>
      Covered(foundWords.items, currentWord + Spell(g, ext))
  {
    ghost var m0 := Marks(visited);
    var cell := CellAt(g, startRow, startCol);
    var p := Position(startRow, startCol);
    var newWord := currentWord + Upper(cell.value.letter);
    var newPath := currentPath + [p];
    OccupiedLetter(g, p);
    assert LetterAt(g, p) == cell.value.letter;
    ExtendVisited(visited, g, currentPath, p);
    PathExtend(g, currentPath, p);
    SpellStep(g, currentPath, p);
    assert WalkSoFar(g, newWord, newPath);
    ghost var items0 := foundWords.items;
    RecordIfNew(foundWords, newWord, newPath, words, g);
    ghost var items1 := foundWords.items;
    if |newWord| < MaxWordLength {
      assert Marks(visited) == m0;
      ExploreNeighbours(g, startRow, startCol, visited, newWord, newPath, words, foundWords);
      NewEntriesChain(g, words, items0, items1, foundWords.items, Max(MaxWordLength, |currentWord| + 1));
    }
    CoverFromCell(g, words, m0, currentWord, currentPath, p, items1, foundWords.items);
  }

  /** A continuation through `p` is covered: either it ends at `p`, and the recording
      covered it, or it goes on, and the search from the neighbours covered it. */
  lemma CoverFromCell(g: Grid, words: set<string>, m: seq<seq<bool>>, word: string, path: seq<Position>,
                      p: Position, recorded: seq<FoundWord>, items: seq<FoundWord>)
    requires recorded <= items
    requires var newWord := word + Upper(LetterAt(g, p));
      |newWord| >= 3 && newWord in words ==> Covered(recorded, newWord)
    requires var newWord := word + Upper(LetterAt(g, p));
      |newWord| < MaxWordLength ==>
        forall ext: seq<Position> :: Walk(g, m, path + [p], ext) && WordAlong(g, words, newWord, ext) ==>
          Covered(items, newWord + Spell(g, ext))
    ensures forall ext: seq<Position> ::
      (Walk(g, m, path, ext) && ext[0] == p && WordAlong(g, words, word, ext)) ==>
      Covered(items, word + Spell(g, ext))
  {
    forall ext: seq<Position> | Walk(g, m, path, ext) && ext[0] == p && WordAlong(g, words, word, ext)
      ensures Covered(items, word + Spell(g, ext))
    {
      ContinueWalk(g, words, m, word, path, p, ext);
      if |ext| == 1 {
        CoveredGrows(recorded, items, word + Upper(LetterAt(g, p)));
      }
    }
  }

  /** The recording block: a dictionary word of at least three letters is pushed with its
      score exactly when no entry carries it yet, so the first path found for a word stays. */
  method RecordIfNew(foundWords: FoundList, newWord: string, newPath: seq<Position>,
                     words: set<string>, g: Grid)
    requires WalkSoFar(g, newWord, newPath)
    modifies foundWords
    ensures old(foundWords.items) <= foundWords.items
    ensures foundWords.items != old(foundWords.items) <==>
      |newWord| >= 3 && newWord in words && !Covered(old(foundWords.items), newWord)
    ensures |newWord| >= 3 && newWord in words ==> Covered(foundWords.items, newWord)
    ensures DistinctWords(old(foundWords.items)) ==> DistinctWords(foundWords.items)
    ensures NewEntriesOk(g, words, foundWords.items, |old(foundWords.items)|, |newWord|)
    ensures forall i :: |old(foundWords.items)| <= i < |foundWords.items| ==>
      foundWords.items[i].path == newPath
  {
    if |newWord| >= 3 && newWord in words {
      var existingWord := foundWords.Find(newWord);
      if existingWord.None? {
        var score := CalculateScore(newWord, newPath);
        var entry := FoundWord(newWord, newPath, score, [], 0);
        assert EntryOk(g, words, entry);
        foundWords.Push(entry);
        assert foundWords.items[|foundWords.items| - 1] == entry;
      } else {
        assert Covered(foundWords.items, newWord);
      }
    }
  }

  /** The `DIRECTIONS` loop: mark the cell, search every valid neighbour, unmark it. */
  method ExploreNeighbours(g: Grid, r: int, c: int, visited: array2<bool>, word: string,
                           path: seq<Position>, words: set<string>, foundWords: FoundList)
    requires VisitedShape(visited, g) && InBounds(g, r, c) && !visited[r, c]
    requires path != [] && path[|path| - 1] == Position(r, c)
    requires WalkSoFar(g, word, path)
    requires forall i :: 0 <= i < |path| - 1 ==> visited[path[i].row, path[i].col]
    requires |word| < MaxWordLength
    modifies visited, foundWords
    decreases MaxWordLength - |word|, 4
    ensures Marks(visited) == old(Marks(visited))
    ensures old(foundWords.items) <= foundWords.items
    ensures DistinctWords(old(foundWords.items)) ==> DistinctWords(foundWords.items)
    ensures NewEntriesOk(g, words, foundWords.items, |old(foundWords.items)|, MaxWordLength)
    ensures forall ext: seq<Position> :: Walk(g, old(Marks(visited)), path, ext) && WordAlong(g, words, word, ext) ==>
      Covered(foundWords.items, word + Spell(g, ext))
  {
    var p := Position(r, c);
    ghost var start := Marks(visited);
    assert start[r][c] == visited[r, c];
    SetMark(visited, r, c, true);
    ghost var marked := Marks(visited);
    WalkAfterMark(g, start, path, r, c);
    assert MarkedPath(marked, path) by {
      forall i | 0 <= i < |path| ensures marked[path[i].row][path[i].col] {
        assert marked[path[i].row][path[i].col] == visited[path[i].row, path[i].col];
      }
    }
    ExploreDirections(g, r, c, visited, word, path, words, foundWords);
    SetMark(visited, r, c, false);
    MarkUndo(start, r, c);
    WalkStarts(g, start, path);
    forall ext: seq<Position> | Walk(g, start, path, ext) && WordAlong(g, words, word, ext)
      ensures Covered(foundWords.items, word + Spell(g, ext))
    {
      NeighboursAreAdjacent(p, ext[0]);
    }
  }

  /** The loop over the eight directions, with the current cell already marked: every
      continuation into any neighbour is covered. */
  method ExploreDirections(g: Grid, r: int, c: int, visited: array2<bool>, word: string,
                           path: seq<Position>, words: set<string>, foundWords: FoundList)
    requires VisitedShape(visited, g)
    requires path != [] && path[|path| - 1] == Position(r, c)
    requires WalkSoFar(g, word, path) && MarkedPath(Marks(visited), path)
    requires |word| < MaxWordLength
    modifies visited, foundWords
    decreases MaxWordLength - |word|, 3
    ensures Marks(visited) == old(Marks(visited))
    ensures old(foundWords.items) <= foundWords.items
    ensures DistinctWords(old(foundWords.items)) ==> DistinctWords(foundWords.items)
    ensures NewEntriesOk(g, words, foundWords.items, |old(foundWords.items)|, MaxWordLength)
    ensures forall dd, ext: seq<Position> ::
      (0 <= dd < |Directions| && Walk(g, old(Marks(visited)), path, ext) && ext[0] == Neighbour(Position(r, c), dd) &&
       WordAlong(g, words, word, ext)) ==> Covered(foundWords.items, word + Spell(g, ext))
  {
    var p := Position(r, c);
    ghost var marked := Marks(visited);
    var d := 0;
    while d < |Directions|
      invariant 0 <= d <= |Directions|
      invariant Marks(visited) == marked
      invariant old(foundWords.items) <= foundWords.items
      invariant DistinctWords(old(foundWords.items)) ==> DistinctWords(foundWords.items)
      invariant NewEntriesOk(g, words, foundWords.items, |old(foundWords.items)|, MaxWordLength)
      invariant forall dd, ext: seq<Position> ::
        (0 <= dd < d && Walk(g, marked, path, ext) && ext[0] == Neighbour(p, dd) &&
         WordAlong(g, words, word, ext)) ==> Covered(foundWords.items, word + Spell(g, ext))
    {
      ghost var before := foundWords.items;
      PathVisitedFromMarks(visited, g, path);
      ExploreDirection(g, r, c, d, visited, word, path, words, foundWords);
      NewEntriesChain(g, words, old(foundWords.items), before, foundWords.items, MaxWordLength);
      CoverDirection(g, words, marked, word, path, p, d, before, foundWords.items);
      d := d + 1;
    }
  }

  /** After direction `d`, the continuations into the first `d + 1` directions are covered. */
  lemma CoverDirection(g: Grid, words: set<string>, m: seq<seq<bool>>, word: string, path: seq<Position>,
                       p: Position, d: nat, before: seq<FoundWord>, items: seq<FoundWord>)
    requires d < |Directions| && before <= items
    requires forall dd, ext: seq<Position> ::
      (0 <= dd < d && Walk(g, m, path, ext) && ext[0] == Neighbour(p, dd) &&
       WordAlong(g, words, word, ext)) ==> Covered(before, word + Spell(g, ext))
    requires forall ext: seq<Position> ::
      (Walk(g, m, path, ext) && ext[0] == Neighbour(p, d) &&
       WordAlong(g, words, word, ext)) ==> Covered(items, word + Spell(g, ext))
    ensures forall dd, ext: seq<Position> ::
      (0 <= dd < d + 1 && Walk(g, m, path, ext) && ext[0] == Neighbour(p, dd) &&
       WordAlong(g, words, word, ext)) ==> Covered(items, word + Spell(g, ext))
  {
    forall dd, ext: seq<Position> | 0 <= dd < d + 1 && Walk(g, m, path, ext) && ext[0] == Neighbour(p, dd) &&
      WordAlong(g, words, word, ext)
      ensures Covered(items, word + Spell(g, ext))
    {
      if dd < d {
        CoveredGrows(before, items, word + Spell(g, ext));
      }
    }
  }

  /** One direction of the loop: the neighbour is searched when `isValidPosition` accepts it. */
  method ExploreDirection(g: Grid, r: int, c: int, d: nat, visited: array2<bool>, word: string,
                          path: seq<Position>, words: set<string>, foundWords: FoundList)
    requires VisitedShape(visited, g) && d < |Directions|
    requires path != [] && path[|path| - 1] == Position(r, c)
    requires WalkSoFar(g, word, path) && PathVisited(visited, g, path)
    requires |word| < MaxWordLength
    modifies visited, foundWords
    decreases MaxWordLength - |word|, 2
    ensures Marks(visited) == old(Marks(visited))
    ensures old(foundWords.items) <= foundWords.items
    ensures DistinctWords(old(foundWords.items)) ==> DistinctWords(foundWords.items)
    ensures NewEntriesOk(g, words, foundWords.items, |old(foundWords.items)|, MaxWordLength)
    ensures forall ext: seq<Position> ::
      (Walk(g, old(Marks(visited)), path, ext) && ext[0] == Neighbour(Position(r, c), d) &&
       WordAlong(g, words, word, ext)) ==> Covered(foundWords.items, word + Spell(g, ext))
  {
    var q := Neighbour(Position(r, c), d);
    if IsValidPosition(q.row, q.col, g, visited) {
      NeighboursAreAdjacent(Position(r, c), q);
      FindWordsFromPosition(g, q.row, q.col, visited, word, path, words, foundWords);
    } else {
      WalkStarts(g, Marks(visited), path);
      if InBounds(g, q.row, q.col) {
        assert Marks(visited)[q.row][q.col] == visited[q.row, q.col];
      }
    }
  }

  // ---------------------------------------------------------------- findAllWords

  /** A dictionary word of 3 to 12 letters can be traced along `path` over non-blank cells. */
  ghost predicate Traceable(g: Grid, words: set<string>, path: seq<Position>)
  {
    && IsPath(g, path)
    && (forall k :: 0 <= k < |path| ==> Occupied(g, path[k].row, path[k].col))
    && 3 <= |path| <= MaxWordLength
    && Spell(g, path) in words
  }

  /** The path of every entry of at most 12 letters traces its word. */
  lemma EntryTraceable(g: Grid, words: set<string>, e: FoundWord)
    requires EntryOk(g, words, e) && |e.word| <= MaxWordLength
    ensures Traceable(g, words, e.path) && e.word == Spell(g, e.path)
  {
  }

  /** `findAllWords`: an empty grid gives no words. Otherwise a search starts from every
      non-blank cell with a fresh `visited` matrix; the duplicate filter and the sort by
      score, then length, follow. The result lists, once each, exactly the dictionary
      words of 3 to 12 letters that some path over non-blank cells spells. */
  method FindAllWords(g: Grid, words: set<string>) returns (result: seq<FoundWord>)
    ensures |g| == 0 || |g[0]| == 0 ==> result == []
    ensures Ranked(result) && DistinctWords(result)
    ensures forall e :: e in result ==> EntryOk(g, words, e) && |e.word| <= MaxWordLength
    ensures forall e :: e in result ==> Traceable(g, words, e.path) && e.word == Spell(g, e.path)
    ensures forall path: seq<Position> :: Traceable(g, words, path) ==>
      exists e :: e in result && e.word == Spell(g, path)
  {
    if |g| == 0 || |g[0]| == 0 {
      return [];
    }
    var foundWords := new FoundList();
    var row := 0;
    while row < |g|
      invariant 0 <= row <= |g|
      invariant DistinctWords(foundWords.items)
      invariant NewEntriesOk(g, words, foundWords.items, 0, MaxWordLength)
      invariant forall path: seq<Position> :: Traceable(g, words, path) && path[0].row < row ==>
        Covered(foundWords.items, Spell(g, path))
    {
      var col := 0;
      while col < |g[0]|
        invariant 0 <= col <= |g[0]|
        invariant DistinctWords(foundWords.items)
        invariant NewEntriesOk(g, words, foundWords.items, 0, MaxWordLength)
        invariant forall path: seq<Position> ::
          (Traceable(g, words, path) && (path[0].row < row || (path[0].row == row && path[0].col < col))) ==>
          Covered(foundWords.items, Spell(g, path))
      {
        ghost var before := foundWords.items;
        SearchFromCell(g, row, col, words, foundWords);
        NewEntriesChain(g, words, [], before, foundWords.items, MaxWordLength);
        forall path: seq<Position> | Traceable(g, words, path) &&
          (path[0].row < row || (path[0].row == row && path[0].col < col))
          ensures Covered(foundWords.items, Spell(g, path))
        {
          CoveredGrows(before, foundWords.items, Spell(g, path));
        }
        col := col + 1;
      }
      NoStartHere(g, words, row, col);
      row := row + 1;
    }
    var uniqueWords := KeepFirst(foundWords.items);
    KeepFirstIdentity(foundWords.items);
    result := SortRanked(uniqueWords);
    SameEntries(g, words, foundWords.items, result);
  }

  /** A reordering of the found entries keeps their soundness and completeness. */
  lemma SameEntries(g: Grid, words: set<string>, items: seq<FoundWord>, result: seq<FoundWord>)
    requires multiset(result) == multiset(items)
    requires NewEntriesOk(g, words, items, 0, MaxWordLength)
    requires forall path: seq<Position> :: Traceable(g, words, path) ==> Covered(items, Spell(g, path))
    ensures forall e :: e in result ==> EntryOk(g, words, e) && |e.word| <= MaxWordLength
    ensures forall e :: e in result ==> Traceable(g, words, e.path) && e.word == Spell(g, e.path)
    ensures forall path: seq<Position> :: Traceable(g, words, path) ==>
      exists e :: e in result && e.word == Spell(g, path)
  {
    forall e | e in result ensures EntryOk(g, words, e) && |e.word| <= MaxWordLength {
      assert e in multiset(items);
    }
    forall path: seq<Position> | Traceable(g, words, path) ensures exists e :: e in result && e.word == Spell(g, path) {
      var i :| 0 <= i < |items| && items[i].word == Spell(g, path);
      assert items[i] in multiset(result);
    }
  }

  /** The body of the scan: a non-blank cell starts a search with a fresh `visited`
      matrix, which lists every word traceable from that cell. */
  method SearchFromCell(g: Grid, row: int, col: int, words: set<string>, foundWords: FoundList)
    requires InBounds(g, row, col)
    modifies foundWords
    ensures old(foundWords.items) <= foundWords.items
    ensures DistinctWords(old(foundWords.items)) ==> DistinctWords(foundWords.items)
    ensures NewEntriesOk(g, words, foundWords.items, |old(foundWords.items)|, MaxWordLength)
    ensures forall path: seq<Position> :: Traceable(g, words, path) && path[0] == Position(row, col) ==>
      Covered(foundWords.items, Spell(g, path))
  {
    NoStartHere(g, words, row, col);
    var cell := CellAt(g, row, col);
    if cell.Some? && cell.value.letter != "" && !IsBlank(cell.value.letter) {
      var visited := new bool[|g|, |g[0]|]((i, j) => false);
      ghost var m := Marks(visited);
      FreshMarks(g, visited);
      FindWordsFromPosition(g, row, col, visited, "", [], words, foundWords);
      forall path: seq<Position> | Traceable(g, words, path) && path[0] == Position(row, col)
        ensures Covered(foundWords.items, Spell(g, path))
      {
        StartWalk(g, words, m, path);
        assert "" + Spell(g, path) == Spell(g, path);
      }
    }
  }

  /** A fresh `visited` matrix has one unset flag per scanned cell. */
  lemma FreshMarks(g: Grid, visited: array2<bool>)
    requires |g| > 0 && visited.Length0 == |g| && visited.Length1 == |g[0]|
    requires forall i, j :: 0 <= i < visited.Length0 && 0 <= j < visited.Length1 ==> !visited[i, j]
    ensures AllClear(g, Marks(visited))
  {
    var m := Marks(visited);
    forall i, j | 0 <= i < |g| && 0 <= j < |g[0]| ensures !m[i][j] {
      assert m[i][j] == visited[i, j];
    }
  }

  /** The marks of a fresh matrix: one unset flag per scanned cell. */
  ghost predicate AllClear(g: Grid, m: seq<seq<bool>>)
  {
    |g| > 0 && |m| == |g| &&
    forall i :: 0 <= i < |g| ==> |m[i]| == |g[0]| && forall j :: 0 <= j < |g[0]| ==> !m[i][j]
  }

  /** A traceable path is a continuation of the empty path on a fresh matrix. */
  lemma StartWalk(g: Grid, words: set<string>, m: seq<seq<bool>>, path: seq<Position>)
    requires AllClear(g, m)
    requires Traceable(g, words, path)
    ensures Walk(g, m, [], path) && WordAlong(g, words, "", path)
  {
    assert "" + Spell(g, path) == Spell(g, path);
    assert forall k :: 0 <= k < |path| ==> HasCell(g, path[k]);
  }

  /** Traceable paths start on a cell inside the grid; a start cell of a traceable path
      is non-blank. */
  lemma NoStartHere(g: Grid, words: set<string>, row: int, col: int)
    ensures forall path: seq<Position> :: Traceable(g, words, path) && path[0] == Position(row, col) ==>
      CellAt(g, row, col).Some? && CellAt(g, row, col).value.letter != "" &&
      !IsBlank(CellAt(g, row, col).value.letter)
    ensures forall path: seq<Position> :: Traceable(g, words, path) ==> path[0].col < |g[0]|
  {
    forall path: seq<Position> | Traceable(g, words, path) ensures path[0].col < |g[0]| {
      assert HasCell(g, path[0]);
    }
  }
}
