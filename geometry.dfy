/**
 * Board geometry: the window is 512 x 512 pixels cut into 8 x 8 cells of 64 pixels.
 * Rank 8 is drawn at the top (row 0) and file a at the left (column 0).
 */
module Geometry {
  import opened ChessTypes

  const WindowSize: int := 512
  const BoardSize: int := 8
  const SquareSize: int := WindowSize / BoardSize

  /** A drawing cell: row 0 is the top of the window, column 0 its left edge. */
  datatype Cell = Cell(row: int, col: int)

  /** A screen rectangle: left, top, width, height in pixels. */
  datatype Rect = Rect(left: int, top: int, width: int, height: int)

  datatype Rgb = Rgb(red: int, green: int, blue: int)

  /** The light square colour (named WHITE in the script). */
  const BoardWhite := Rgb(240, 217, 181)
  /** The dark square colour (named BLACK in the script). */
  const BoardBlack := Rgb(181, 136, 99)
  const HighlightColor := Rgb(186, 202, 68)

  /** The library's square_file, square_rank and square(file, rank); square does not range-check. */
  function SquareFile(s: Square): int { s % 8 }
  function SquareRank(s: Square): int { s / 8 }
  function MakeSquare(file: int, rank: int): int { rank * 8 + file }

  predicate OnWindow(x: int, y: int) { 0 <= x < WindowSize && 0 <= y < WindowSize }

  predicate OnBoard(c: Cell) { 0 <= c.row < BoardSize && 0 <= c.col < BoardSize }

  /**
   * The square under the mouse pointer. The script divides with Python's floor division;
   * Dafny's division by a positive divisor is the same operation.
   */
  function SquareUnderMouse(x: int, y: int): int
  {
    var row := y / SquareSize;
    var col := x / SquareSize;
    MakeSquare(col, 7 - row)
  }

  /** The cell a square is drawn in, as both drawing routines compute it. */
  function DrawCell(s: Square): (c: Cell)
    ensures OnBoard(c)
  {
    Cell(7 - SquareRank(s), SquareFile(s))
  }

  /** The square drawn in an on-board cell: the inverse of DrawCell. */
  function CellSquare(c: Cell): (s: Square)
    requires OnBoard(c)
    ensures DrawCell(s) == c
  {
    MakeSquare(c.col, 7 - c.row)
  }

  /** The rectangle a cell occupies: left edge at column times 64, top edge at row times 64, 64 x 64. */
  function CellRect(c: Cell): Rect
  {
    Rect(c.col * SquareSize, c.row * SquareSize, SquareSize, SquareSize)
  }

  /** Whether a pixel lies in a rectangle; the right and bottom edges are exclusive. */
  predicate Covers(r: Rect, x: int, y: int)
  {
    r.left <= x < r.left + r.width && r.top <= y < r.top + r.height
  }

  /** The checkerboard rule of the board drawing loop. */
  function CheckerColor(c: Cell): Rgb
  {
    if (c.row + c.col) % 2 == 0 then BoardWhite else BoardBlack
  }

  /** Every square has a file and a rank in 0..7 and is rebuilt from them. */
  lemma SquareCoordinates(s: Square)
    ensures 0 <= SquareFile(s) < 8 && 0 <= SquareRank(s) < 8
    ensures MakeSquare(SquareFile(s), SquareRank(s)) == s
  {
  }

  /** Building a square from an in-range file and rank and taking it apart again gives them back. */
  lemma MakeSquareCoordinates(file: int, rank: int)
    requires 0 <= file < 8 && 0 <= rank < 8
    ensures 0 <= MakeSquare(file, rank) < 64
    ensures SquareFile(MakeSquare(file, rank)) == file
    ensures SquareRank(MakeSquare(file, rank)) == rank
  {
  }

  /** Any on-window pixel selects file x // 64 and rank 7 - y // 64, a square in 0..63. */
  lemma MouseSquare(x: int, y: int)
    requires OnWindow(x, y)
    ensures 0 <= SquareUnderMouse(x, y) < 64
    ensures SquareFile(SquareUnderMouse(x, y)) == x / SquareSize
    ensures SquareRank(SquareUnderMouse(x, y)) == 7 - y / SquareSize
  {
    MakeSquareCoordinates(x / SquareSize, 7 - y / SquareSize);
  }

  /** A coordinate lies in the 64-pixel span of index k exactly when it divides down to k. */
  lemma SpanDivision(v: int, k: int)
    ensures k * SquareSize <= v < k * SquareSize + SquareSize <==> v / SquareSize == k
  {
  }

  /**
   * Drawing inverts the mouse mapping: a pixel lies in the cell where square s is drawn
   * exactly when it is on the window and the mouse mapping sends it to s.
   */
  lemma DrawnCellMapsBack(s: Square, x: int, y: int)
    ensures Covers(CellRect(DrawCell(s)), x, y) <==> OnWindow(x, y) && SquareUnderMouse(x, y) == s
  {
    var c := DrawCell(s);
    SpanDivision(x, c.col);
    SpanDivision(y, c.row);
    if OnWindow(x, y) {
      MouseSquare(x, y);
    }
  }

  /** No two squares share a drawing cell. */
  lemma DrawCellInjective(s: Square, t: Square)
    ensures DrawCell(s) == DrawCell(t) <==> s == t
  {
    SquareCoordinates(s);
    SquareCoordinates(t);
  }

  /** The cells tile the board: each square's cell lies inside the window. */
  lemma CellRectOnWindow(s: Square, x: int, y: int)
    requires Covers(CellRect(DrawCell(s)), x, y)
    ensures OnWindow(x, y)
  {
    DrawnCellMapsBack(s, x, y);
  }

  /** Horizontally and vertically adjacent cells have different colours. */
  lemma CheckerAlternates(c: Cell)
    ensures CheckerColor(c) != CheckerColor(Cell(c.row, c.col + 1))
    ensures CheckerColor(c) != CheckerColor(Cell(c.row + 1, c.col))
  {
  }

  /** A square is drawn dark exactly when its file and rank have the same parity. */
  lemma SquareShade(s: Square)
    ensures CheckerColor(DrawCell(s)) == BoardBlack <==> (SquareFile(s) + SquareRank(s)) % 2 == 0
  {
  }

  /**
   * Orientation check of the drawn board: a1 (square 0) comes out dark and h1 (square 7)
   * light, so each player has a light square in the right-hand corner, as on a real board.
   */
  lemma CornerShades()
    ensures CheckerColor(DrawCell(0)) == BoardBlack
    ensures CheckerColor(DrawCell(7)) == BoardWhite
  {
  }
}
