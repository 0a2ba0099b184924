/** Shapes shared by every part of the game: the board cell, the team record
    and the three screens the application moves between. */
module Types {

  datatype Option<T> = None | Some(value: T)

  /** One square of the 5x5 bingo board. A cell is answered once and never edited. */
  datatype Cell = Cell(answered: bool, answer: string)

  /** A registered team, as kept in the shared team list. `startTime` and the
      numeric part of `id` are wall-clock milliseconds, taken here as given values. */
  datatype Team = Team(
    id: string,
    name: string,
    score: int,
    board: seq<Cell>,
    completedLines: int,
    deviceId: string,
    timeRemaining: int,
    startTime: int
  )

  /** The single top-level value that decides which screen is shown. */
  datatype GameState = Registration | Playing | Leaderboard

  /** Width (and height) of the board. */
  const Side: nat := 5
  /** Number of cells on a board. */
  const BoardSize: nat := 25
  /** Index of the centre cell, the pre-marked free space. */
  const Centre: nat := 12
  /** Length of a turn in seconds (ten minutes). */
  const TurnSeconds: nat := 600
  /** Points awarded per completed line. */
  const PointsPerLine: nat := 10

  const EmptyCell := Cell(false, "")
  const FreeSpaceCell := Cell(true, "FREE SPACE")
}
