/**
 * What one frame draws, at the granularity of cells: the checkerboard with the selected
 * square and the highlighted targets painted over it, and the pieces placed on their cells.
 */
module BoardView {
  import opened ChessTypes
  import opened Geometry

  /** The moves of `moves` that start on `from`, kept in their original order. */
  function MovesFrom(moves: seq<Move>, from: Square): (r: seq<Move>)
    ensures |r| <= |moves|
    ensures forall m :: m in r <==> m in moves && m.fromSquare == from
  {
    if moves == [] then []
    else if moves[0].fromSquare == from then [moves[0]] + MovesFrom(moves[1..], from)
    else MovesFrom(moves[1..], from)
  }

  /** Filtering a concatenation filters each part: the filter keeps the library's order. */
  lemma {:induction false} MovesFromAppend(a: seq<Move>, b: seq<Move>, from: Square)
    ensures MovesFrom(a + b, from) == MovesFrom(a, from) + MovesFrom(b, from)
  {
    if a == [] {
      assert a + b == b;
    } else {
      assert (a + b)[0] == a[0];
      assert (a + b)[1..] == a[1..] + b;
      MovesFromAppend(a[1..], b, from);
    }
  }

  /**
   * The moves whose targets are highlighted: the legal moves that start on the selected
   * square, and none when nothing is selected.
   */
  function HighlightedMoves(legal: seq<Move>, selected: Option<Square>): (r: seq<Move>)
    ensures selected.None? ==> r == []
    ensures forall m :: m in r <==> selected.Some? && m in legal && m.fromSquare == selected.value
    ensures |r| <= |legal|
  {
    if selected.Some? then MovesFrom(legal, selected.value) else []
  }

  /** A cell is painted over when it is the selected square's cell or some target's cell. */
  predicate Marked(selected: Option<Square>, targets: seq<Move>, c: Cell)
  {
    (selected.Some? && DrawCell(selected.value) == c)
    || (exists i :: 0 <= i < |targets| && DrawCell(targets[i].toSquare) == c)
  }

  /** The colour a cell ends up with once the board drawing is done. */
  function CellColor(selected: Option<Square>, targets: seq<Move>, c: Cell): Rgb
  {
    if Marked(selected, targets, c) then HighlightColor else CheckerColor(c)
  }

  /** An 8 x 8 grid indexed [row][col]. */
  predicate IsGrid<T>(g: seq<seq<T>>)
  {
    |g| == BoardSize && forall row :: 0 <= row < |g| ==> |g[row]| == BoardSize
  }

  function Paint<T>(g: seq<seq<T>>, c: Cell, v: T): (r: seq<seq<T>>)
    requires IsGrid(g) && OnBoard(c)
    ensures IsGrid(r)
    ensures forall row, col :: 0 <= row < BoardSize && 0 <= col < BoardSize ==>
      r[row][col] == if Cell(row, col) == c then v else g[row][col]
  {
    g[c.row := g[c.row][c.col := v]]
  }

  /** The first loop of the board drawing routine: every cell in its checkerboard colour. */
  method DrawCheckerboard() returns (canvas: seq<seq<Rgb>>)
    ensures IsGrid(canvas)
    ensures forall row, col :: 0 <= row < BoardSize && 0 <= col < BoardSize ==>
      canvas[row][col] == CheckerColor(Cell(row, col))
  {
    canvas := [];
    for row := 0 to BoardSize
      invariant |canvas| == row
      invariant forall r :: 0 <= r < row ==> |canvas[r]| == BoardSize
      invariant forall r, c :: 0 <= r < row && 0 <= c < BoardSize ==> canvas[r][c] == CheckerColor(Cell(r, c))
    {
      var line := [];
      for col := 0 to BoardSize
        invariant |line| == col
        invariant forall c :: 0 <= c < col ==> line[c] == CheckerColor(Cell(row, c))
      {
        line := line + [CheckerColor(Cell(row, col))];
      }
      canvas := canvas + [line];
    }
  }

  /** Taking one more target marks exactly that target's cell in addition. */
  lemma MarkedExtend(selected: Option<Square>, targets: seq<Move>, i: int, c: Cell)
    requires 0 <= i < |targets|
    ensures Marked(selected, targets[..i + 1], c) <==>
      Marked(selected, targets[..i], c) || DrawCell(targets[i].toSquare) == c
  {
    assert targets[..i + 1][i] == targets[i];
    assert forall j :: 0 <= j < i ==> targets[..i + 1][j] == targets[..i][j];
  }

  /**
   * The board drawing routine: all 64 cells in the checkerboard colours, then the selected
   * square, then the target square of every highlighted move.
   */
  method DrawBoard(selected: Option<Square>, targets: seq<Move>) returns (canvas: seq<seq<Rgb>>)
    ensures IsGrid(canvas)
    ensures forall row, col :: 0 <= row < BoardSize && 0 <= col < BoardSize ==>
      canvas[row][col] == CellColor(selected, targets, Cell(row, col))
  {
    canvas := DrawCheckerboard();
    if selected.Some? {
      canvas := Paint(canvas, DrawCell(selected.value), HighlightColor);
    }
    for i := 0 to |targets|
      invariant IsGrid(canvas)
      invariant forall r, c :: 0 <= r < BoardSize && 0 <= c < BoardSize ==>
        canvas[r][c] == CellColor(selected, targets[..i], Cell(r, c))
    {
      var cell := DrawCell(targets[i].toSquare);
      canvas := Paint(canvas, cell, HighlightColor);
      forall r, c | 0 <= r < BoardSize && 0 <= c < BoardSize
        ensures Marked(selected, targets[..i + 1], Cell(r, c)) <==>
          Marked(selected, targets[..i], Cell(r, c)) || cell == Cell(r, c)
      {
        MarkedExtend(selected, targets, i, Cell(r, c));
      }
    }
    assert targets[..|targets|] == targets;
  }

  /**
   * The piece drawing routine: each of the 64 squares, in index order, places its piece
   * (when there is one) on the square's cell; `pieceAt` is the board's `piece_at`.
   */
  method DrawPieces(pieceAt: Square -> Option<Piece>) returns (sprites: seq<seq<Option<Piece>>>)
    ensures IsGrid(sprites)
    ensures forall row, col :: 0 <= row < BoardSize && 0 <= col < BoardSize ==>
      sprites[row][col] == pieceAt(CellSquare(Cell(row, col)))
  {
    var empty: seq<Option<Piece>> := seq(BoardSize, _ => None);
    sprites := seq(BoardSize, _ => empty);
    for square := 0 to 64
      invariant IsGrid(sprites)
      invariant forall row, col :: 0 <= row < BoardSize && 0 <= col < BoardSize ==>
        sprites[row][col] == if CellSquare(Cell(row, col)) < square then pieceAt(CellSquare(Cell(row, col))) else None
    {
      var piece := pieceAt(square);
      if piece.Some? {
        sprites := Paint(sprites, DrawCell(square), piece);
      }
      forall row, col | 0 <= row < BoardSize && 0 <= col < BoardSize
        ensures Cell(row, col) == DrawCell(square) <==> CellSquare(Cell(row, col)) == square
      {
        DrawCellInjective(CellSquare(Cell(row, col)), square);
      }
    }
  }

  /** Every drawn piece sits on the cell of the square it occupies, and only there. */
  lemma PieceCellsMatchSquares(pieceAt: Square -> Option<Piece>, sprites: seq<seq<Option<Piece>>>, s: Square)
    requires IsGrid(sprites)
    requires forall row, col :: 0 <= row < BoardSize && 0 <= col < BoardSize ==>
      sprites[row][col] == pieceAt(CellSquare(Cell(row, col)))
    ensures sprites[DrawCell(s).row][DrawCell(s).col] == pieceAt(s)
  {
    var c := DrawCell(s);
    DrawCellInjective(CellSquare(c), s);
  }
}
