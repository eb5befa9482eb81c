/** Integer scoring of wordFinder-fixed.ts: letter values with DL/TL cells,
    a product of DW/TW factors, three points per letter beyond four, and a
    penalty of three points per swap, never below zero. */
module FixedScoring {
  import opened Types
  import opened GridModel
  import opened Scoring

  /** `calculateGemCost`: each swap spends three gems. */
  function GemCost(swapCount: int): int
  {
    swapCount * 3
  }

  /** A budget of `gems` pays for `k` swaps exactly when `k` is at most `gems div 3`. */
  lemma GemBudget(k: nat, gems: int)
    ensures GemCost(k) <= gems <==> k <= gems / 3
  {
    var q, r := gems / 3, gems % 3;
    assert gems == 3 * q + r && 0 <= r < 3;
    if k <= q {
      assert GemCost(k) <= 3 * q;
    } else {
      assert GemCost(k) >= 3 * q + 3;
    }
  }

  /** `Math.max(0, (word.length - 4) * 3)`. */
  function LengthBonus(len: int): int
  {
    Max(0, (len - 4) * 3)
  }

  /** The value `calculateScore` computes: the multiplied letter sum plus the length
      bonus, minus the gem cost, clamped at zero. Only the first `|word|` path cells count. */
  function Score(word: string, path: seq<Position>, g: Grid, swaps: seq<SwapInfo>): int
    requires |word| <= |path|
  {
    var n := |word|;
    Max(0, LetterSumTo(FixedTable, word, path, g, n) * WordMultiplierTo(path, g, n) + LengthBonus(n) - GemCost(|swaps|))
  }

  /** `calculateScore` of wordFinder-fixed.ts: the shared accumulator loop, then the word
      factor, the length bonus and the gem penalty (the memo table is not modelled). */
  method CalculateScore(word: string, path: seq<Position>, g: Grid, swaps: seq<SwapInfo>) returns (score: int)
    requires |word| <= |path|
    requires forall i :: 0 <= i < |word| ==> CellAt(g, path[i].row, path[i].col).Some?
    ensures score == Score(word, path, g, swaps)
  {
    var wordMultiplier;
    score, wordMultiplier := SumAlongPath(FixedTable, word, path, g);
    score := score * wordMultiplier;
    score := score + LengthBonus(|word|);
    score := Max(0, score - GemCost(|swaps|));
  }

  /** Without swaps, every word scores at least one point per letter. */
  lemma ScoreAtLeastLength(word: string, path: seq<Position>, g: Grid)
    requires |word| <= |path|
    ensures Score(word, path, g, []) >= |word|
  {
    var n := |word|;
    var s, m := LetterSumTo(FixedTable, word, path, g, n), WordMultiplierTo(path, g, n);
    LetterSumAtLeastLength(FixedTable, word, path, g, n);
    WordMultiplierPositive(path, g, n);
    ProductAtLeast(s, m);
    assert LengthBonus(|word|) >= 0 && GemCost(0) == 0;
  }

  /** The swap penalty is applied to the swap-free score and clamped at zero. */
  lemma ScoreSwapPenalty(word: string, path: seq<Position>, g: Grid, swaps: seq<SwapInfo>)
    requires |word| <= |path|
    ensures Score(word, path, g, swaps) == Max(0, Score(word, path, g, []) - 3 * |swaps|)
  {
    var n := |word|;
    var s, m := LetterSumTo(FixedTable, word, path, g, n), WordMultiplierTo(path, g, n);
    LetterSumAtLeastLength(FixedTable, word, path, g, n);
    WordMultiplierPositive(path, g, n);
    ProductAtLeast(s, m);
    assert GemCost(0) == 0 && GemCost(|swaps|) == 3 * |swaps|;
  }

  /** The search's incremental bookkeeping: given the letter sum and word factor of the
      path so far, extending by one cell and finishing as the search does yields `Score`. */
  lemma IncrementalScore(word: string, path: seq<Position>, g: Grid, swaps: seq<SwapInfo>,
                         c: char, p: Position, currentScore: int, wordMultiplier: int)
    requires |word| == |path|
    requires currentScore == LetterSum(FixedTable, word, path, g)
    requires wordMultiplier == WordMultiplier(path, g)
    ensures var newScore := currentScore + LetterPoints(FixedTable, c, MultAt(g, p));
            var newMultiplier := wordMultiplier * WordFactor(MultAt(g, p));
            Max(0, newScore * newMultiplier + LengthBonus(|word| + 1) - GemCost(|swaps|))
              == Score(word + [c], path + [p], g, swaps)
  {
    LetterSumStep(FixedTable, word, path, g, c, p);
  }

  /** C-A-T on plain cells scores 4 + 1 + 1; a double-word cell under the A doubles
      it; one swap costs three points. */
  lemma ScoreExamples()
    ensures var path := [Position(0, 0), Position(0, 1), Position(0, 2)];
            var plain := [[Cell("C", NoMultiplier), Cell("A", NoMultiplier), Cell("T", NoMultiplier)]];
            var doubled := [[Cell("C", NoMultiplier), Cell("A", DW), Cell("T", NoMultiplier)]];
            Score("CAT", path, plain, []) == 6 &&
            Score("CAT", path, doubled, []) == 12 &&
            Score("CAT", path, plain, [SwapInfo(Position(0, 1), "O", "A")]) == 3
  {
    var path := [Position(0, 0), Position(0, 1), Position(0, 2)];
    var plain := [[Cell("C", NoMultiplier), Cell("A", NoMultiplier), Cell("T", NoMultiplier)]];
    var doubled := [[Cell("C", NoMultiplier), Cell("A", DW), Cell("T", NoMultiplier)]];
    assert MultAt(doubled, Position(0, 1)) == DW;
    assert LetterSumTo(FixedTable, "CAT", path, plain, 3) == 6;
    assert LetterSumTo(FixedTable, "CAT", path, doubled, 3) == 6;
    assert WordMultiplierTo(path, doubled, 3) == 2;
    assert WordMultiplierTo(path, plain, 3) == 1;
  }
}
