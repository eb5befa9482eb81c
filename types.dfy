/** The records exchanged by the solver (app/types/spellcast.ts). */
module Types {

  datatype Option<+T> = None | Some(value: T)

  /** The optional multiplier of a cell: none, double/triple letter, double/triple word. */
  datatype Multiplier = NoMultiplier | DL | TL | DW | TW

  /** A cell's letter as the grid editor stores it: empty, or one character
      (the input field has maxLength 1). */
  type CellLetter = s: string | |s| <= 1 witness ""

  datatype Cell = Cell(letter: CellLetter, multiplier: Multiplier)

  type Grid = seq<seq<Cell>>

  datatype Position = Position(row: int, col: int)

  datatype SwapInfo = SwapInfo(position: Position, originalLetter: CellLetter, newLetter: CellLetter)

  datatype SolverSettings = SolverSettings(availableGems: int, maxSwaps: int, allowSwaps: bool)

  /** The default settings of every entry point: no gems, no swaps. */
  const DefaultSettings := SolverSettings(0, 0, false)

  datatype FoundWord = FoundWord(word: string, path: seq<Position>, score: int,
                                 swapsUsed: seq<SwapInfo>, gemCost: int)

  function Max(a: int, b: int): int { if a < b then b else a }

  function Min(a: int, b: int): int { if a < b then a else b }
}
