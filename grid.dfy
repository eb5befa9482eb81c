/** The letter grid: cell access, blank cells, adjacency, paths, legal
    traversal targets, and the copy-on-write letter swap shared by the three
    variants of the solver. */
module GridModel {
  import opened Types

  // ---------------------------------------------------------------- cells

  /** `grid[r][c]`, or None where JavaScript would read `undefined`. */
  function CellAt(g: Grid, r: int, c: int): Option<Cell>
  {
    if 0 <= r < |g| && 0 <= c < |g[r]| then Some(g[r][c]) else None
  }

  /** Inside the rectangle the solver scans: `|grid|` rows, `|grid[0]|` columns. */
  predicate InBounds(g: Grid, r: int, c: int)
  {
    0 <= r < |g| && 0 <= c < |g[0]|
  }

  /** Inside the scanned rectangle and backed by an actual cell. */
  predicate HasCell(g: Grid, p: Position)
  {
    InBounds(g, p.row, p.col) && CellAt(g, p.row, p.col).Some?
  }

  /** The characters that JavaScript's `String.prototype.trim` removes. */
  predicate IsSpace(ch: char)
  {
    ch == '\t' || ch == '\n' || ch == '\U{000B}' || ch == '\U{000C}' || ch == '\r' ||
    ch == ' ' || ch == '\U{00A0}' || ch == '\U{1680}' || ('\U{2000}' <= ch <= '\U{200A}') ||
    ch == '\U{2028}' || ch == '\U{2029}' || ch == '\U{202F}' || ch == '\U{205F}' ||
    ch == '\U{3000}' || ch == '\U{FEFF}'
  }

  /** `letter.trim() === ''`: empty or only white space. */
  predicate IsBlank(letter: string)
  {
    forall i :: 0 <= i < |letter| ==> IsSpace(letter[i])
  }

  /** `cell && cell.letter && cell.letter.trim() !== ''`. */
  predicate Occupied(g: Grid, r: int, c: int)
  {
    CellAt(g, r, c).Some? && !IsBlank(CellAt(g, r, c).value.letter)
  }

  function LetterAt(g: Grid, p: Position): CellLetter
  {
    match CellAt(g, p.row, p.col)
    case Some(cell) => cell.letter
    case None => ""
  }

  function MultAt(g: Grid, p: Position): Multiplier
  {
    match CellAt(g, p.row, p.col)
    case Some(cell) => cell.multiplier
    case None => NoMultiplier
  }

  // ------------------------------------------------------------ adjacency

  /** The eight neighbour offsets, in the order the searches try them. */
  const Directions: seq<(int, int)> :=
    [(-1, -1), (-1, 0), (-1, 1), (0, -1), (0, 1), (1, -1), (1, 0), (1, 1)]

  function Neighbour(p: Position, d: nat): Position
    requires d < |Directions|
  {
    Position(p.row + Directions[d].0, p.col + Directions[d].1)
  }

  /** 8-adjacency: distinct cells at most one row and one column apart. */
  predicate Adjacent(p: Position, q: Position)
  {
    p != q && -1 <= q.row - p.row <= 1 && -1 <= q.col - p.col <= 1
  }

  /** Every offset reaches an adjacent cell, and every adjacent cell is reached
      by some offset: the searches walk exactly the 8-neighbourhood. */
  lemma NeighboursAreAdjacent(p: Position, q: Position)
    ensures (exists d :: 0 <= d < |Directions| && Neighbour(p, d) == q) <==> Adjacent(p, q)
  {
    if Adjacent(p, q) {
      var dr, dc := q.row - p.row, q.col - p.col;
      var d := if dr == -1 then dc + 1 else if dr == 0 then (if dc == -1 then 3 else 4) else dc + 6;
      assert Neighbour(p, d) == q;
    }
  }

  // ---------------------------------------------------------------- paths

  /** A path: cells of the grid, consecutive ones adjacent, none used twice. */
  predicate IsPath(g: Grid, path: seq<Position>)
  {
    && (forall i :: 0 <= i < |path| ==> HasCell(g, path[i]))
    && (forall i :: 0 < i < |path| ==> Adjacent(path[i - 1], path[i]))
    && (forall i, j :: 0 <= i < j < |path| ==> path[i] != path[j])
  }

  lemma PathExtend(g: Grid, path: seq<Position>, p: Position)
    requires IsPath(g, path) && HasCell(g, p) && p !in path
    requires path == [] || Adjacent(path[|path| - 1], p)
    ensures IsPath(g, path + [p])
  {
    var np := path + [p];
    forall i, j | 0 <= i < j < |np| ensures np[i] != np[j] {
      if j == |path| { assert np[i] == path[i]; }
    }
  }

  /** Dropping the first cell of a path leaves a path. */
  lemma PathTail(g: Grid, path: seq<Position>)
    requires IsPath(g, path) && path != []
    ensures IsPath(g, path[1..])
    ensures |path| > 1 ==> Adjacent(path[0], path[1..][0]) && path[0] !in path[1..]
  {
    var rest := path[1..];
    assert forall i :: 0 <= i < |rest| ==> rest[i] == path[i + 1];
  }

  // -------------------------------------------------- visited bookkeeping

  /** `visited` has one flag per scanned cell, as built by `Array(rows)...fill(false)`. */
  predicate VisitedShape(visited: array2<bool>, g: Grid)
  {
    visited.Length0 == |g| && (|g| > 0 ==> visited.Length1 == |g[0]|)
  }

  /** The contents of the visited matrix, row by row. */
  ghost function Marks(visited: array2<bool>): seq<seq<bool>>
    reads visited
  {
    seq(visited.Length0, i requires 0 <= i < visited.Length0 reads visited =>
      seq(visited.Length1, j requires 0 <= j < visited.Length1 reads visited => visited[i, j]))
  }

  /** Two matrices whose cells agree have the same contents. */
  lemma MarksAgree(visited: array2<bool>, m: seq<seq<bool>>)
    requires |m| == visited.Length0 && forall i :: 0 <= i < |m| ==> |m[i]| == visited.Length1
    requires forall i, j :: 0 <= i < visited.Length0 && 0 <= j < visited.Length1 ==> visited[i, j] == m[i][j]
    ensures Marks(visited) == m
  {
    var k := Marks(visited);
    forall i | 0 <= i < |m| ensures k[i] == m[i] {
      assert forall j :: 0 <= j < visited.Length1 ==> k[i][j] == visited[i, j];
    }
  }

  /** Every cell of the current path is marked visited. */
  ghost predicate PathVisited(visited: array2<bool>, g: Grid, path: seq<Position>)
    reads visited
    requires VisitedShape(visited, g) && IsPath(g, path)
  {
    forall i :: 0 <= i < |path| ==> visited[path[i].row, path[i].col]
  }

  /** `visited[r][c] = b`, stated on the contents of the matrix. */
  method SetMark(visited: array2<bool>, r: int, c: int, b: bool)
    requires 0 <= r < visited.Length0 && 0 <= c < visited.Length1
    modifies visited
    ensures Marks(visited) == old(Marks(visited))[r := old(Marks(visited))[r][c := b]]
  {
    ghost var m := Marks(visited);
    visited[r, c] := b;
    MarksAgree(visited, m[r := m[r][c := b]]);
  }

  /** Setting a cell and then putting its old value back restores the contents. */
  lemma MarkUndo(m: seq<seq<bool>>, r: int, c: int)
    requires 0 <= r < |m| && 0 <= c < |m[r]|
    ensures var set1 := m[r := m[r][c := true]];
            set1[r := set1[r][c := m[r][c]]] == m
  {
    var set1 := m[r := m[r][c := true]];
    assert set1[r][c := m[r][c]] == m[r];
  }

  /** Every cell of the path is set in the contents `m`. */
  ghost predicate MarkedPath(m: seq<seq<bool>>, path: seq<Position>)
  {
    forall i :: 0 <= i < |path| ==>
      0 <= path[i].row < |m| && 0 <= path[i].col < |m[path[i].row]| && m[path[i].row][path[i].col]
  }

  lemma PathVisitedFromMarks(visited: array2<bool>, g: Grid, path: seq<Position>)
    requires VisitedShape(visited, g) && IsPath(g, path)
    requires MarkedPath(Marks(visited), path)
    ensures PathVisited(visited, g, path)
  {
    forall i | 0 <= i < |path| ensures visited[path[i].row, path[i].col] {
      assert Marks(visited)[path[i].row][path[i].col] == visited[path[i].row, path[i].col];
    }
  }

  lemma MarksFromPathVisited(visited: array2<bool>, g: Grid, path: seq<Position>)
    requires VisitedShape(visited, g) && IsPath(g, path)
    requires PathVisited(visited, g, path)
    ensures MarkedPath(Marks(visited), path)
  {
    forall i | 0 <= i < |path|
      ensures 0 <= path[i].row < |Marks(visited)| && 0 <= path[i].col < |Marks(visited)[path[i].row]|
      ensures Marks(visited)[path[i].row][path[i].col]
    {
      assert Marks(visited)[path[i].row][path[i].col] == visited[path[i].row, path[i].col];
    }
  }

  /** An unvisited cell is not on the path, and every earlier cell of the extended path is visited. */
  lemma ExtendVisited(visited: array2<bool>, g: Grid, path: seq<Position>, p: Position)
    requires VisitedShape(visited, g) && IsPath(g, path) && PathVisited(visited, g, path)
    requires HasCell(g, p) && !visited[p.row, p.col]
    ensures p !in path
    ensures forall i :: 0 <= i < |path + [p]| - 1 ==> visited[(path + [p])[i].row, (path + [p])[i].col]
  {
    forall i | 0 <= i < |path| ensures path[i] != p {
      assert visited[path[i].row, path[i].col];
    }
  }

  /** Grids of the same shape have the same paths. */
  lemma SameShapePath(a: Grid, b: Grid, path: seq<Position>)
    requires SameShape(a, b) && IsPath(a, path)
    ensures IsPath(b, path)
  {
    forall i | 0 <= i < |path| ensures HasCell(b, path[i]) {
      assert HasCell(a, path[i]) && |a[0]| == |b[0]|;
      assert |a[path[i].row]| == |b[path[i].row]|;
    }
  }

  /** `isValidPosition` (identical in the three variants): a legal traversal
      target is a cell inside the grid, not yet on the current path, and not blank. */
  function IsValidPosition(row: int, col: int, g: Grid, visited: array2<bool>): (ok: bool)
    reads visited
    requires VisitedShape(visited, g)
    ensures ok <==> InBounds(g, row, col) && !visited[row, col] && Occupied(g, row, col)
  {
    if row < 0 || row >= |g| || col < 0 || col >= |g[0]| then false
    else if visited[row, col] then false
    else
      var cell := CellAt(g, row, col);
      cell.Some? && cell.value.letter != "" && !IsBlank(cell.value.letter)
  }

  // --------------------------------------------------------- letter swaps

  /** `hasSwapAtPosition`: some recorded swap sits at `pos`. */
  predicate HasSwapAtPosition(swaps: seq<SwapInfo>, pos: Position)
  {
    exists k :: 0 <= k < |swaps| && swaps[k].position == pos
  }

  predicate SameShape(a: Grid, b: Grid)
  {
    |a| == |b| && forall i :: 0 <= i < |a| ==> |a[i]| == |b[i]|
  }

  /** `createGridWithSwap`: a copy of the grid in which the swapped cell shows
      the new letter and keeps its multiplier; every other cell is unchanged. */
  function CreateGridWithSwap(g: Grid, swap: SwapInfo): (r: Grid)
    requires CellAt(g, swap.position.row, swap.position.col).Some?
    ensures SameShape(r, g)
    ensures forall i, j :: 0 <= i < |g| && 0 <= j < |g[i]| ==>
      r[i][j] == if Position(i, j) == swap.position
                 then Cell(swap.newLetter, g[i][j].multiplier) else g[i][j]
  {
    var p := swap.position;
    g[p.row := g[p.row][p.col := Cell(swap.newLetter, g[p.row][p.col].multiplier)]]
  }

  predicate SwapsInGrid(g: Grid, swaps: seq<SwapInfo>)
  {
    forall k :: 0 <= k < |swaps| ==> CellAt(g, swaps[k].position.row, swaps[k].position.col).Some?
  }

  /** The grid after the first `n` swaps, applied in order. */
  function ApplySwapsTo(g: Grid, swaps: seq<SwapInfo>, n: nat): (r: Grid)
    requires SwapsInGrid(g, swaps) && n <= |swaps|
    ensures SameShape(r, g)
  {
    if n == 0 then g
    else CreateGridWithSwap(ApplySwapsTo(g, swaps, n - 1), swaps[n - 1])
  }

  /** The grid as a path sees it once its swaps are applied in order. */
  function ApplySwaps(g: Grid, swaps: seq<SwapInfo>): (r: Grid)
    requires SwapsInGrid(g, swaps)
    ensures SameShape(r, g)
  {
    ApplySwapsTo(g, swaps, |swaps|)
  }

  /** A cell none of the first `n` swaps touches reads as in the original grid. */
  lemma {:induction false} ApplySwapsUntouched(g: Grid, swaps: seq<SwapInfo>, q: Position, n: nat)
    requires SwapsInGrid(g, swaps) && n <= |swaps|
    requires forall k :: 0 <= k < n ==> swaps[k].position != q
    ensures CellAt(ApplySwapsTo(g, swaps, n), q.row, q.col) == CellAt(g, q.row, q.col)
    decreases n
  {
    if n > 0 {
      ApplySwapsUntouched(g, swaps, q, n - 1);
    }
  }

  /** Swaps change letters only: every cell keeps its multiplier. */
  lemma {:induction false} ApplySwapsKeepsMultipliers(g: Grid, swaps: seq<SwapInfo>, q: Position, n: nat)
    requires SwapsInGrid(g, swaps) && n <= |swaps|
    ensures MultAt(ApplySwapsTo(g, swaps, n), q) == MultAt(g, q)
    decreases n
  {
    if n > 0 {
      ApplySwapsKeepsMultipliers(g, swaps, q, n - 1);
    }
  }

  /** The first `n` swaps are applied the same way whatever follows them. */
  lemma {:induction false} ApplySwapsPrefix(g: Grid, s1: seq<SwapInfo>, s2: seq<SwapInfo>, n: nat)
    requires SwapsInGrid(g, s1) && SwapsInGrid(g, s2) && n <= |s1| && n <= |s2|
    requires forall k :: 0 <= k < n ==> s1[k] == s2[k]
    ensures ApplySwapsTo(g, s1, n) == ApplySwapsTo(g, s2, n)
    decreases n
  {
    if n > 0 {
      ApplySwapsPrefix(g, s1, s2, n - 1);
    }
  }

  /** One more swap is one more `createGridWithSwap` on the grid so far. */
  lemma SwapsInGridExtend(g: Grid, swaps: seq<SwapInfo>, s: SwapInfo)
    requires SwapsInGrid(g, swaps) && CellAt(g, s.position.row, s.position.col).Some?
    ensures SwapsInGrid(g, swaps + [s])
    ensures ApplySwaps(g, swaps + [s]) == CreateGridWithSwap(ApplySwaps(g, swaps), s)
  {
    ApplySwapsPrefix(g, swaps + [s], swaps, |swaps|);
  }

  // ------------------------------------------------------------- spelling

  /** ASCII `toUpperCase` of one character. */
  function UpperChar(c: char): char
  {
    if 'a' <= c <= 'z' then (c as int - 32) as char else c
  }

  /** `toUpperCase` applied character by character. */
  function Upper(s: string): (r: string)
    ensures |r| == |s| && forall i :: 0 <= i < |s| ==> r[i] == UpperChar(s[i])
  {
    seq(|s|, i requires 0 <= i < |s| => UpperChar(s[i]))
  }

  lemma UpperAppend(a: string, b: string)
    ensures Upper(a + b) == Upper(a) + Upper(b)
  {
    assert forall i :: 0 <= i < |a + b| ==> Upper(a + b)[i] == (Upper(a) + Upper(b))[i];
  }

  lemma UpperIdempotent(s: string)
    ensures Upper(Upper(s)) == Upper(s)
  {
    assert forall i :: 0 <= i < |s| ==> Upper(Upper(s))[i] == Upper(s)[i];
  }

  /** The letters of the first `n` path cells, concatenated as the searches build `currentWord`. */
  function SpellTo(g: Grid, path: seq<Position>, n: nat): string
    requires n <= |path|
  {
    if n == 0 then "" else SpellTo(g, path, n - 1) + LetterAt(g, path[n - 1])
  }

  /** The word a path spells, upper-cased. */
  function Spell(g: Grid, path: seq<Position>): string
  {
    Upper(SpellTo(g, path, |path|))
  }

  /** Spelling the first `n` cells reads only those cells. */
  lemma {:induction false} SpellFrame(g1: Grid, g2: Grid, p1: seq<Position>, p2: seq<Position>, n: nat)
    requires n <= |p1| && n <= |p2|
    requires forall i :: 0 <= i < n ==> LetterAt(g1, p1[i]) == LetterAt(g2, p2[i])
    ensures SpellTo(g1, p1, n) == SpellTo(g2, p2, n)
    decreases n
  {
    if n > 0 {
      SpellFrame(g1, g2, p1, p2, n - 1);
    }
  }

  /** One more cell appends that cell's letter to the spelling. */
  lemma SpellToStep(g: Grid, path: seq<Position>, p: Position)
    ensures SpellTo(g, path + [p], |path| + 1) == SpellTo(g, path, |path|) + LetterAt(g, p)
  {
    SpellFrame(g, g, path + [p], path, |path|);
  }

  lemma SpellStep(g: Grid, path: seq<Position>, p: Position)
    ensures Spell(g, path + [p]) == Spell(g, path) + Upper(LetterAt(g, p))
  {
    SpellFrame(g, g, path + [p], path, |path|);
    UpperAppend(SpellTo(g, path, |path|), LetterAt(g, p));
  }

  /** The raw letters of `a` followed by the first `n` cells of `b`. */
  lemma {:induction false} SpellToConcat(g: Grid, a: seq<Position>, b: seq<Position>, n: nat)
    requires n <= |b|
    ensures SpellTo(g, a + b, |a| + n) == SpellTo(g, a, |a|) + SpellTo(g, b, n)
    decreases n
  {
    if n == 0 {
      SpellFrame(g, g, a + b, a, |a|);
    } else {
      SpellToConcat(g, a, b, n - 1);
      var ab, k := a + b, |a| + n - 1;
      assert ab[k] == b[n - 1];
      assert SpellTo(g, ab, k + 1) == SpellTo(g, ab, k) + LetterAt(g, ab[k]);
    }
  }

  /** The spelling of two paths one after the other is the two spellings joined. */
  lemma SpellConcat(g: Grid, a: seq<Position>, b: seq<Position>)
    ensures Spell(g, a + b) == Spell(g, a) + Spell(g, b)
  {
    SpellToConcat(g, a, b, |b|);
    UpperAppend(SpellTo(g, a, |a|), SpellTo(g, b, |b|));
  }

  /** A non-blank cell holds exactly one character. */
  lemma OccupiedLetter(g: Grid, p: Position)
    requires Occupied(g, p.row, p.col)
    ensures |LetterAt(g, p)| == 1
  {
    var letter := CellAt(g, p.row, p.col).value.letter;
    assert !IsBlank(letter);
  }

  /** Over non-blank cells a path spells one letter per cell. */
  lemma {:induction false} SpellLength(g: Grid, path: seq<Position>, n: nat)
    requires n <= |path|
    requires forall k :: 0 <= k < n ==> Occupied(g, path[k].row, path[k].col)
    ensures |SpellTo(g, path, n)| == n
    decreases n
  {
    if n > 0 {
      SpellLength(g, path, n - 1);
      OccupiedLetter(g, path[n - 1]);
    }
  }

  /** Appending a cell that no swap touches adds that cell's own letter, upper-cased. */
  lemma SpellAppendUntouched(g: Grid, swaps: seq<SwapInfo>, path: seq<Position>, p: Position)
    requires SwapsInGrid(g, swaps)
    requires forall k :: 0 <= k < |swaps| ==> swaps[k].position != p
    ensures Spell(ApplySwaps(g, swaps), path + [p]) == Spell(ApplySwaps(g, swaps), path) + Upper(LetterAt(g, p))
  {
    SpellStep(ApplySwaps(g, swaps), path, p);
    ApplySwapsUntouched(g, swaps, p, |swaps|);
  }

  /** Swapping a cell that is not on the path and then appending it adds the new letter
      and leaves the spelling of the path so far unchanged. */
  lemma SpellAppendSwapped(g: Grid, swaps: seq<SwapInfo>, path: seq<Position>, s: SwapInfo)
    requires SwapsInGrid(g, swaps) && CellAt(g, s.position.row, s.position.col).Some?
    requires s.position !in path
    ensures SwapsInGrid(g, swaps + [s])
    ensures Spell(ApplySwaps(g, swaps + [s]), path + [s.position]) == Spell(ApplySwaps(g, swaps), path) + Upper(s.newLetter)
  {
    SwapsInGridExtend(g, swaps, s);
    var before := ApplySwaps(g, swaps);
    var after := ApplySwaps(g, swaps + [s]);
    assert after == CreateGridWithSwap(before, s);
    forall i | 0 <= i < |path| ensures LetterAt(after, path[i]) == LetterAt(before, path[i]) {
      assert path[i] != s.position;
    }
    SpellFrame(after, before, path, path, |path|);
    SpellStep(after, path, s.position);
    assert LetterAt(after, s.position) == s.newLetter;
  }
}
