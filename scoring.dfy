/** Letter values and the parts of the score that the variants share: the
    per-letter lookup with its fallback, letter multipliers (DL/TL) summed
    along a path, word multipliers (DW/TW) multiplied along it, and the
    floating-point length bonus of the two older variants, taken in exact
    real arithmetic. */
module Scoring {
  import opened Types
  import opened GridModel

  /** wordFinder-fixed.ts has its own table; wordFinder.ts and wordFinder-new.ts share another. */
  datatype Table = FixedTable | LegacyTable

  /** `LETTER_SCORES` of wordFinder-fixed.ts by letter; 0 where it has no entry. */
  function FixedValue(c: char): int
  {
    match c
    case 'A' => 1 case 'B' => 4 case 'C' => 4 case 'D' => 2 case 'E' => 1 case 'F' => 4 case 'G' => 3
    case 'H' => 3 case 'I' => 1 case 'J' => 10 case 'K' => 5 case 'L' => 2 case 'M' => 4 case 'N' => 2
    case 'O' => 1 case 'P' => 4 case 'Q' => 10 case 'R' => 1 case 'S' => 1 case 'T' => 1 case 'U' => 2
    case 'V' => 5 case 'W' => 4 case 'X' => 8 case 'Y' => 3 case 'Z' => 10
    case _ => 0
  }

  /** `LETTER_SCORES` of wordFinder.ts and wordFinder-new.ts by letter; 0 where it has no entry. */
  function LegacyValue(c: char): int
  {
    match c
    case 'A' => 1 case 'B' => 3 case 'C' => 3 case 'D' => 2 case 'E' => 1 case 'F' => 4 case 'G' => 2
    case 'H' => 4 case 'I' => 1 case 'J' => 8 case 'K' => 5 case 'L' => 1 case 'M' => 3 case 'N' => 1
    case 'O' => 1 case 'P' => 3 case 'Q' => 10 case 'R' => 1 case 'S' => 1 case 'T' => 1 case 'U' => 1
    case 'V' => 4 case 'W' => 4 case 'X' => 8 case 'Y' => 4 case 'Z' => 10
    case _ => 0
  }

  /** `LETTER_SCORES[key]`: the entry of a one-letter key, None where JavaScript reads `undefined`. */
  function Lookup(t: Table, key: string): Option<int>
  {
    if |key| != 1 then None
    else
      var v := match t case FixedTable => FixedValue(key[0]) case LegacyTable => LegacyValue(key[0]);
      if v == 0 then None else Some(v)
  }

  /** Every table entry is worth 1 to 10 points, so `|| 1` only ever replaces a missing entry. */
  lemma TableValuesInRange(t: Table, key: string)
    requires Lookup(t, key).Some?
    ensures 1 <= Lookup(t, key).value <= 10
  {
  }

  /** `LETTER_SCORES[key] || 1`: the table value, and 1 for any key the table lacks. */
  function LetterScore(t: Table, key: string): (v: int)
    ensures Lookup(t, key).None? ==> v == 1
    ensures Lookup(t, key).Some? ==> v == Lookup(t, key).value
    ensures 1 <= v <= 10
  {
    match Lookup(t, key)
    case None => 1
    case Some(x) => TableValuesInRange(t, key); x
  }

  /** DL doubles and TL triples the letter on the cell. */
  function LetterFactor(m: Multiplier): int
  {
    match m
    case DL => 2
    case TL => 3
    case _ => 1
  }

  /** DW doubles and TW triples the whole word. */
  function WordFactor(m: Multiplier): int
  {
    match m
    case DW => 2
    case TW => 3
    case _ => 1
  }

  /** One letter's points on a cell: its upper-cased value times the letter multiplier. */
  function LetterPoints(t: Table, c: char, m: Multiplier): int
  {
    LetterScore(t, [UpperChar(c)]) * LetterFactor(m)
  }

  /** The points of the first `n` letters, each on its own path cell. */
  function LetterSumTo(t: Table, word: string, path: seq<Position>, g: Grid, n: nat): int
    requires n <= |word| && n <= |path|
  {
    if n == 0 then 0
    else LetterSumTo(t, word, path, g, n - 1) + LetterPoints(t, word[n - 1], MultAt(g, path[n - 1]))
  }

  /** The sum of the letters' points, each on its own path cell. */
  function LetterSum(t: Table, word: string, path: seq<Position>, g: Grid): int
    requires |path| == |word|
  {
    LetterSumTo(t, word, path, g, |word|)
  }

  /** The product of the word multipliers met on the first `n` cells of the path. */
  function WordMultiplierTo(path: seq<Position>, g: Grid, n: nat): int
    requires n <= |path|
  {
    if n == 0 then 1 else WordMultiplierTo(path, g, n - 1) * WordFactor(MultAt(g, path[n - 1]))
  }

  /** The product of the word multipliers met along the path. */
  function WordMultiplier(path: seq<Position>, g: Grid): int
  {
    WordMultiplierTo(path, g, |path|)
  }

  /** The `switch (cell.multiplier)` of both `calculateScore`s with multipliers: DL doubles
      and TL triples the letter, DW doubles and TW triples the word factor. */
  method ApplyCellMultiplier(m: Multiplier, letterScore: int, wordMultiplier: int)
    returns (newLetterScore: int, newWordMultiplier: int)
    ensures newLetterScore == letterScore * LetterFactor(m)
    ensures newWordMultiplier == wordMultiplier * WordFactor(m)
  {
    newLetterScore, newWordMultiplier := letterScore, wordMultiplier;
    match m {
      case DL => newLetterScore := letterScore * 2;
      case TL => newLetterScore := letterScore * 3;
      case DW => newWordMultiplier := wordMultiplier * 2;
      case TW => newWordMultiplier := wordMultiplier * 3;
      case NoMultiplier =>
    }
  }

  /** The accumulator loop both `calculateScore`s with multipliers share: each letter's
      upper-cased value, doubled on DL and tripled on TL, is added to the sum, and DW/TW
      double or triple the word factor. */
  method SumAlongPath(t: Table, word: string, path: seq<Position>, g: Grid) returns (score: int, wordMultiplier: int)
    requires |word| <= |path|
    requires forall i :: 0 <= i < |word| ==> CellAt(g, path[i].row, path[i].col).Some?
    ensures score == LetterSumTo(t, word, path, g, |word|)
    ensures wordMultiplier == WordMultiplierTo(path, g, |word|)
  {
    score := 0;
    wordMultiplier := 1;
    var i := 0;
    while i < |word|
      invariant 0 <= i <= |word|
      invariant score == LetterSumTo(t, word, path, g, i)
      invariant wordMultiplier == WordMultiplierTo(path, g, i)
    {
      var position := path[i];
      var letterScore := LetterScore(t, [UpperChar(word[i])]);
      var cell := g[position.row][position.col];
      assert cell.multiplier == MultAt(g, position);
      letterScore, wordMultiplier := ApplyCellMultiplier(cell.multiplier, letterScore, wordMultiplier);
      score := score + letterScore;
      i := i + 1;
    }
  }

  /** The plain sum of the first `n` letter values, no cell multipliers. */
  function LetterTotalTo(t: Table, word: string, n: nat): int
    requires n <= |word|
  {
    if n == 0 then 0 else LetterTotalTo(t, word, n - 1) + LetterScore(t, [UpperChar(word[n - 1])])
  }

  /** The plain sum of letter values, no cell multipliers. */
  function LetterTotal(t: Table, word: string): int
  {
    LetterTotalTo(t, word, |word|)
  }

  /** Every letter is worth at least one point. */
  lemma {:induction false} LetterTotalAtLeastLength(t: Table, word: string, n: nat)
    requires n <= |word|
    ensures LetterTotalTo(t, word, n) >= n
    decreases n
  {
    if n > 0 {
      LetterTotalAtLeastLength(t, word, n - 1);
    }
  }

  /** The plain total sees a letter only through its upper-case form. */
  lemma {:induction false} LetterTotalCaseFrame(t: Table, w1: string, w2: string, n: nat)
    requires n <= |w1| && n <= |w2|
    requires forall i :: 0 <= i < n ==> UpperChar(w1[i]) == UpperChar(w2[i])
    ensures LetterTotalTo(t, w1, n) == LetterTotalTo(t, w2, n)
    decreases n
  {
    if n > 0 {
      LetterTotalCaseFrame(t, w1, w2, n - 1);
    }
  }

  lemma LetterTotalUpper(t: Table, word: string, n: nat)
    requires n <= |word|
    ensures LetterTotalTo(t, Upper(word), n) == LetterTotalTo(t, word, n)
  {
    LetterTotalCaseFrame(t, Upper(word), word, n);
  }

  /** The sums over the first `n` cells read only those letters and cells. */
  lemma {:induction false} SumsPrefix(t: Table, w1: string, p1: seq<Position>, w2: string, p2: seq<Position>,
                                      g: Grid, n: nat)
    requires n <= |w1| && n <= |p1| && n <= |w2| && n <= |p2|
    requires forall i :: 0 <= i < n ==> w1[i] == w2[i] && p1[i] == p2[i]
    ensures LetterSumTo(t, w1, p1, g, n) == LetterSumTo(t, w2, p2, g, n)
    ensures WordMultiplierTo(p1, g, n) == WordMultiplierTo(p2, g, n)
    decreases n
  {
    if n > 0 {
      SumsPrefix(t, w1, p1, w2, p2, g, n - 1);
    }
  }

  lemma LetterSumStep(t: Table, word: string, path: seq<Position>, g: Grid, c: char, p: Position)
    requires |path| == |word|
    ensures LetterSum(t, word + [c], path + [p], g) == LetterSum(t, word, path, g) + LetterPoints(t, c, MultAt(g, p))
    ensures WordMultiplier(path + [p], g) == WordMultiplier(path, g) * WordFactor(MultAt(g, p))
  {
    SumsPrefix(t, word + [c], path + [p], word, path, g, |word|);
  }

  /** Every letter is worth at least one point, so `n` letters are worth at least `n`. */
  lemma {:induction false} LetterSumAtLeastLength(t: Table, word: string, path: seq<Position>, g: Grid, n: nat)
    requires n <= |word| && n <= |path|
    ensures n <= LetterSumTo(t, word, path, g, n)
    decreases n
  {
    if n > 0 {
      LetterSumAtLeastLength(t, word, path, g, n - 1);
    }
  }

  lemma {:induction false} WordMultiplierPositive(path: seq<Position>, g: Grid, n: nat)
    requires n <= |path|
    ensures WordMultiplierTo(path, g, n) >= 1
    decreases n
  {
    if n > 0 {
      WordMultiplierPositive(path, g, n - 1);
    }
  }

  /** The score sees a letter only through its upper-case form. */
  lemma {:induction false} LetterSumCaseFrame(t: Table, w1: string, w2: string, path: seq<Position>, g: Grid, n: nat)
    requires n <= |w1| && n <= |w2| && n <= |path|
    requires forall i :: 0 <= i < n ==> UpperChar(w1[i]) == UpperChar(w2[i])
    ensures LetterSumTo(t, w1, path, g, n) == LetterSumTo(t, w2, path, g, n)
    decreases n
  {
    if n > 0 {
      LetterSumCaseFrame(t, w1, w2, path, g, n - 1);
    }
  }

  lemma LetterSumUpper(t: Table, word: string, path: seq<Position>, g: Grid, n: nat)
    requires n <= |word| && n <= |path|
    ensures LetterSumTo(t, Upper(word), path, g, n) == LetterSumTo(t, word, path, g, n)
  {
    LetterSumCaseFrame(t, Upper(word), word, path, g, n);
  }

  /** Letter and word sums read only the multipliers of the path's cells. */
  lemma {:induction false} SumsFrame(t: Table, word: string, path: seq<Position>, g1: Grid, g2: Grid, n: nat)
    requires n <= |word| && n <= |path|
    requires forall i :: 0 <= i < n ==> MultAt(g1, path[i]) == MultAt(g2, path[i])
    ensures LetterSumTo(t, word, path, g1, n) == LetterSumTo(t, word, path, g2, n)
    ensures WordMultiplierTo(path, g1, n) == WordMultiplierTo(path, g2, n)
    decreases n
  {
    if n > 0 {
      SumsFrame(t, word, path, g1, g2, n - 1);
    }
  }

  /** On a path without letter multipliers the letter sum is the plain letter total. */
  lemma {:induction false} LetterSumWithoutMultipliers(t: Table, word: string, path: seq<Position>, g: Grid, n: nat)
    requires n <= |word| && n <= |path|
    requires forall i :: 0 <= i < n ==> MultAt(g, path[i]) !in {DL, TL}
    ensures LetterSumTo(t, word, path, g, n) == LetterTotalTo(t, word, n)
    decreases n
  {
    if n > 0 {
      LetterSumWithoutMultipliers(t, word, path, g, n - 1);
    }
  }

  /** On a path without word multipliers the word factor is one. */
  lemma {:induction false} WordMultiplierWithoutMultipliers(path: seq<Position>, g: Grid, n: nat)
    requires n <= |path|
    requires forall i :: 0 <= i < n ==> MultAt(g, path[i]) !in {DW, TW}
    ensures WordMultiplierTo(path, g, n) == 1
    decreases n
  {
    if n > 0 {
      WordMultiplierWithoutMultipliers(path, g, n - 1);
    }
  }

  // ------------------------------------------- floating-point length bonus

  /** The compounded length multiplier of wordFinder.ts and wordFinder-new.ts:
      x1.2 from 5 letters, then x1.5, x2.0, x2.5, x3.0, x4.0 at 6, 7, 8, 9, 10. */
  function LengthFactor(len: int): real
  {
    if len >= 10 then 108.0
    else if len == 9 then 27.0
    else if len == 8 then 9.0
    else if len == 7 then 3.6
    else if len == 6 then 1.8
    else if len == 5 then 1.2
    else 1.0
  }

  /** The chain of `if (len >= k) score *= f` statements multiplies by LengthFactor. */
  method ApplyLengthMultipliers(score: real, len: int) returns (r: real)
    ensures r == score * LengthFactor(len)
  {
    r := score;
    if len >= 5 { r := r * 1.2; }
    if len >= 6 { r := r * 1.5; }
    if len >= 7 { r := r * 2.0; }
    if len >= 8 { r := r * 2.5; }
    if len >= 9 { r := r * 3.0; }
    if len >= 10 { r := r * 4.0; }
  }

  /** A points total after the length multipliers and `Math.round`. */
  function LengthScaled(total: int, len: int): int
  {
    Round(total as real * LengthFactor(len))
  }

  /** The multiplier chain followed by `Math.round`, on an integer total. */
  method ScaleAndRound(total: int, len: int) returns (score: int)
    ensures score == LengthScaled(total, len)
  {
    var x := ApplyLengthMultipliers(total as real, len);
    score := Round(x);
  }

  /** `Math.round`: the nearest integer, halves rounded up. */
  function Round(x: real): (r: int)
    ensures r as real - 0.5 <= x < r as real + 0.5
  {
    (x + 0.5).Floor
  }

  /** Every length factor is at least one. */
  lemma LengthFactorAtLeastOne(n: int)
    ensures LengthFactor(n) >= 1.0
  {
  }

  /** Scaling a non-negative amount by a factor of at least one does not shrink it. */
  lemma ScaleAtLeast(k: int, f: real)
    requires k >= 0 && f >= 1.0
    ensures k as real * f >= k as real
  {
    assert k as real * f - k as real == k as real * (f - 1.0);
  }

  /** A word factor of at least one does not shrink a non-negative sum. */
  lemma ProductAtLeast(s: int, m: int)
    requires s >= 0 && m >= 1
    ensures s * m >= s
  {
    assert s * m == s + s * (m - 1);
  }

  /** A sum of at least `n` points, scaled by a factor of at least one and rounded,
      stays at least `n`. */
  lemma RoundedScaleAtLeast(k: int, f: real, n: int)
    requires k >= n >= 0 && f >= 1.0
    ensures Round(k as real * f) >= n
  {
    ScaleAtLeast(k, f);
    RoundAtLeast(k as real * f, n);
  }

  /** Rounding a value of at least `n` gives at least `n`. */
  lemma RoundAtLeast(x: real, n: int)
    requires x >= n as real
    ensures Round(x) >= n
  {
  }
}
