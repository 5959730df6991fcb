# A click-to-move chess board against an engine: model of the controller

`main.py` is a single pygame script. It draws a chess board in a 512 × 512 window and lets a
human play White by clicking: one click to pick a piece, one click to pick its destination. It
answers every accepted human move that does not end the game with a move from the Stockfish
engine. All chess rules come
from the `python-chess` library and all replies from the engine. So the logic the script itself
owns, and that this project models, is:

- **board geometry**: pixel → square (`get_square_under_mouse`), square → drawing cell
  (`draw_board`, `draw_pieces`), and the checkerboard colour rule (module `Geometry`);
- **what a frame draws**, at cell granularity: the checkerboard with the selected square and the
  highlighted move targets painted over it, the pieces on their cells, and the line-174 filter
  that picks the highlighted moves (module `BoardView`);
- **the status chain** run after every ply: checkmate, then stalemate, then insufficient material,
  then the 75-move rule, then fivefold repetition, then variant draw. The first one that holds
  ends the game with a fixed text (module `GameStatus`);
- **the click-selection state machine** of the main loop. Its state is the pushed move list, the
  selected square, `game_over` and the result text. Module `Controller` models it two ways: as
  pure functions (`ClickStep`, `ProcessEvents`, `RunFrames`) that the lemmas talk about, and as
  the class `Game`, whose methods `Click`, `HandleEvents`, `Step` and `Run` update its fields the
  way the loop does and are proved equal to those functions.

A click's square does not come from the event. The handler calls `get_square_under_mouse`, which
reads `pygame.mouse.get_pos()` when it runs. pygame updates that position only when the event
queue is polled, once per frame, so every click handled in one frame reads the same position.
The model therefore gives each poll (`Controller.Poll`) one pointer position, and a mouse-down
event carries none. One consequence (`Controller.DoubleClickInOneFrame`): two clicks in one frame
cannot pick a piece and move it; the second click tries the move from the selected square to
itself.

The foreign parts are inputs. A `Library` value stands for `python-chess`. It is a set of
functions of the move history: `piece_at`, the `legal_moves` enumeration in the library's
order, the membership test `move in board.legal_moves`, `is_capture`, `turn`, and the six
terminal predicates. This works because the board is the standard start position with the
history's moves pushed. The membership test (`isLegal`) decides a click; the enumeration
(`legalMoves`) only feeds the line-174 highlight filter. The model relates the two in no way, as
python-chess's test also accepts some moves its enumeration spells differently (castling clicked
as the king moving onto its own rook). The engine is a function from the history to its
reply. In one run, each engine query happens at a different, strictly longer history, so a
function of the history covers any behaviour a time-limited search can show.

Integer arithmetic follows the script. Python's `//` on the non-negative pixel coordinates is
Dafny's `/`. The library's `square(file, rank)`, `square_file` and `square_rank` are
`rank * 8 + file`, `s % 8` and `s / 8`.

Three traits of the script that the model keeps as they are:

- The script pushes the engine's reply without checking its legality
  (`Controller.EngineReplyUnchecked`).
- Once `game_over` is set, the script ignores every click: nothing is reported and nothing
  changes (`Controller.ClickAfterGameOver`, `Controller.EventsAfterGameOver`).
- The status chain ends with a sixth predicate, `is_variant_draw`, whose text is "Draw!".

## Model

| member | source | states |
|---|---|---|
| Geometry.SquareUnderMouse | main.py:63-69 | the pixel-to-square mapping; its behaviour is stated by MouseSquare (file x // 64, rank 7 − y // 64, a square in 0..63) and DrawnCellMapsBack (it inverts the drawing cells) |
| Geometry.MouseSquare | main.py:63-69 | for every pixel with 0 ≤ x, y < 512 the clicked square is in 0..63, with file x // 64 and rank 7 − y // 64 |
| Geometry.MakeSquareCoordinates | main.py:68 | building a square from an in-range file and rank gives a square in 0..63 whose file and rank are the ones given |
| Geometry.SquareCoordinates | main.py:43-44 | every square has file and rank in 0..7 and is rebuilt from them |
| Geometry.DrawCell | main.py:57-58 | the cell (7 − rank, file) a square is drawn in is on the 8 × 8 board |
| Geometry.CellSquare | main.py:57-58 | every on-board cell is the drawing cell of a square, so drawing hits every cell |
| Geometry.SpanDivision | main.py:66-67 | a coordinate lies in the 64-pixel span of index k exactly when it floor-divides by 64 to k |
| Geometry.DrawnCellMapsBack | main.py:57-68 | a pixel lies in the rectangle where square s is drawn if and only if it is on the window and the mouse mapping sends it to s |
| Geometry.DrawCellInjective | main.py:57-60 | two squares share a drawing cell only if they are the same square |
| Geometry.CellRectOnWindow | main.py:40-45 | every pixel of a square's drawn rectangle lies on the window |
| Geometry.CheckerColor | main.py:39 | the checkerboard rule; its behaviour is stated by CheckerAlternates, SquareShade and CornerShades |
| Geometry.CheckerAlternates | main.py:37-40 | horizontally and vertically adjacent cells get different colours |
| Geometry.SquareShade | main.py:37-40 | a square is painted the dark colour exactly when its file and rank have the same parity |
| Geometry.CornerShades | main.py:37-40 | orientation check: a1 is painted dark and h1 light, as on a real board |
| BoardView.MovesFrom | main.py:174 | the filtered list holds exactly the moves of the input that start on the given square, and is no longer than the input |
| BoardView.MovesFromAppend | main.py:174 | filtering a concatenation is the concatenation of the filtered parts, so the filter keeps the library's order |
| BoardView.HighlightedMoves | main.py:174 | the highlighted moves are exactly the legal moves whose from-square is the selected square, and none when nothing is selected |
| BoardView.DrawCheckerboard | main.py:37-40 | the nested row and column loops paint every cell of the 8 × 8 grid in its checkerboard colour |
| BoardView.DrawBoard | main.py:36-50 | every cell ends up in the highlight colour if it is the selected square's cell or a highlighted move's target cell, and otherwise in its checkerboard colour |
| BoardView.DrawPieces | main.py:53-60 | the cell at (row, col) shows the piece on the square drawn there, and is empty when that square is empty |
| BoardView.PieceCellsMatchSquares | main.py:53-60 | after drawing, each square's own cell shows that square's piece |
| GameStatus.Verdict | main.py:124-141 | the status chain; its behaviour is stated by VerdictIsFirstTrue, OngoingIffNoPredicate, VerdictDeterminesReason and CheckmateWinner |
| GameStatus.VerdictIsFirstTrue | main.py:124-141 | the chain's result is the text of the first predicate that holds in the order checkmate, stalemate, insufficient material, 75 moves, fivefold, variant draw, and none when no predicate holds |
| GameStatus.OngoingIffNoPredicate | main.py:124-144 | the game continues (and the engine is asked) exactly when none of the six predicates holds |
| GameStatus.TextsDistinct | main.py:126-141 | the six result texts are pairwise different, and the two checkmate texts differ |
| GameStatus.VerdictDeterminesReason | main.py:124-141 | equal result texts come from the same winning predicate, and for checkmate from the same side to move |
| GameStatus.CheckmateWinner | main.py:126 | the text is "Checkmate! White wins!" exactly when checkmate holds with Black to move, and "Checkmate! Black wins!" exactly when White is to move |
| Controller.PlySound | main.py:116-119 | the sound of one ply, chosen by is_capture on the board before the push; stated by ClickLegal and Game.Push |
| Controller.PlayMove | main.py:114-169 | a legal human move and its consequences; stated by ClickLegal, EngineReplyUnchecked and PushKeepsPlies |
| Controller.ClickStep | main.py:105-171 | the mouse-down handler on a given square; stated by ClickAfterGameOver, ClickSelects, ClickIllegalClears, ClickLegal, ClickAddsAtMostTwo and ClickKeepsConsistent |
| Controller.EventStep | main.py:100-106 | one event of a frame: a mouse-down is a click on the frame's pointer square, a quit or any other event leaves the state alone; stated through ProcessEvents |
| Controller.ProcessEvents | main.py:100-171 | one frame's events in order, all clicks on the same pointer square; stated by EventsKeepConsistent, EventsAfterGameOver, EventsOnlyAppend and DoubleClickInOneFrame |
| Controller.InitialConsistent | main.py:88-94 | the start state (no moves, no selection, game not over, empty text) satisfies the loop's invariant |
| Controller.ClickAfterGameOver | main.py:105 | once game_over holds a click changes neither the moves, the selection nor the text, and plays no sound |
| Controller.ClickSelects | main.py:108-111 | with no selection, a click selects the square exactly when it holds a piece, of either colour, and changes nothing else |
| Controller.ClickIllegalClears | main.py:114-171 | with a selection, a click whose move the library's membership test rejects only clears the selection |
| Controller.ClickLegal | main.py:115-169 | a legal move is appended and the selection cleared; the engine reply is appended too exactly when the chain finds nothing after the human move; game_over is set exactly when the chain finds something on the final board, with that text; one sound per ply, capture or plain as the library says |
| Controller.EngineReplyUnchecked | main.py:144-149 | whatever the engine replies is pushed, with no legality check |
| Controller.ClickAddsAtMostTwo | main.py:105-171 | a click keeps every earlier ply, appends at most two, plays one sound per appended ply, clears the selection when it moves, and never resets game_over |
| Controller.PushKeepsPlies | main.py:114-149 | appending a legal promotion-free human move, and then the engine's reply, keeps "even plies legal human moves, odd plies engine replies" |
| Controller.ClickKeepsConsistent | main.py:105-171 | every click keeps the invariant: even plies are legal human moves without promotion, odd plies are engine replies, an odd-length history means the game ended on a human move, a set banner is the chain's verdict on the current board, a running game's last position is not terminal, and a selected square holds a piece |
| Controller.EventsKeepConsistent | main.py:100-171 | any batch of events keeps that invariant |
| Controller.EventsAfterGameOver | main.py:100-105 | once game_over holds no batch of events changes the state or plays a sound |
| Controller.EventsOnlyAppend | main.py:100-171 | a batch of n events keeps every earlier ply, appends at most 2n, plays one sound per ply, and never resets game_over |
| Controller.DoubleClickInOneFrame | main.py:100-115 | two clicks in one frame, starting with nothing selected on a square with a piece, leave the state as it was and play nothing when the library rejects the move from that square to itself |
| Controller.RunFrames | main.py:98-102 | the number of frames shown is the number of polls up to and including the first one with a quit event, or all of them when none has one |
| Controller.RunFramesStop | main.py:98-102 | polls after the first one with a quit event change nothing: the run over all polls equals the run over the polls up to it |
| Controller.RunFramesKeepConsistent | main.py:98-171 | any run of the loop over any polls keeps the loop's invariant |
| Controller.BannerFor | main.py:181-182 | the result text is drawn exactly when game_over holds |
| Controller.Game.constructor | main.py:88-94 | the loop starts with no moves, no selection, game_over false, an empty text and running true |
| Controller.Game.CheckStatus | main.py:124-141 | if the chain finds a predicate, game_over is set with its text; otherwise both stay as they were |
| Controller.Game.Push | main.py:116-120 | the move is appended and the sound chosen by is_capture on the board before the push is returned |
| Controller.Game.Click | main.py:105-171 | the handler's new state and sounds are those of ClickStep, and it keeps the invariant |
| Controller.Game.HandleEvents | main.py:100-171 | handling a frame's events in order, every click on the square under the frame's pointer position, gives the state and sounds of ProcessEvents, so clicks after a quit event in the same frame are still handled; running is cleared exactly when a quit event was among them |
| Controller.Game.Step | main.py:98-186 | one pass of the loop handles the events and then paints the board with the highlights of the new selection, the pieces of the new board and the banner of the new state |
| Controller.Game.Run | main.py:98-102 | the loop ends in the state and frame count of RunFrames on the old state, with running false exactly when some poll held a quit event; moves are only appended, nothing changes after game_over, and the invariant is kept |

## Left out

- The `python-chess` library (move legality, `push`, `is_capture`, `turn`, the terminal predicates) is not part of this model. Its answers are inputs (`Controller.Library`), and no chess rule is modelled.
- The Stockfish engine and its protocol (`popen_uci`, `engine.play` with its 2-second limit, `engine.quit`) are external process I/O. The reply is an arbitrary function of the history. A reply of `None` and engine failures are not modelled, because the script does not handle them either.
- Rendering is kept only as arithmetic. The canvas is one colour per cell rather than pixels, pieces are the `Piece` value rather than their images, and fonts and text drawing are not modelled. Image loading (`load_images`, the window icon), the mixer and sound files are also left out. A sound is only the `MoveSound` or `CaptureSound` value returned for each ply.
- Event polling, `clock.tick(60)`, `pygame.display.flip` and `pygame.quit` are not modelled. A frame's events and its pointer position are an input (`Controller.Poll`), and `Run` takes a finite list of polls instead of looping until quit.
- The pointer position of every poll is taken to lie on the window (`Geometry.OnWindow`). A position outside it would reach `chess.square` unchecked and is not modelled.
- Promotion by clicking is not modelled. The move built from two clicks never carries a promotion piece. Whether such a move is legal on the last rank is the library's decision, so it is left to the `Library` input.
