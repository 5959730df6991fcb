/**
 * The click-selection state machine of the main loop. The chess library and the engine are
 * foreign: the library is a set of functions of the move history (the board is the standard
 * starting position with those moves pushed), and the engine a function from the history to
 * its reply, which the loop pushes without checking it.
 */
module Controller {
  import opened ChessTypes
  import opened Geometry
  import opened GameStatus
  import opened BoardView

  /** The chess library's view of the board after the moves `h` have been pushed. */
  datatype Library = Library(
    pieceAt: (seq<Move>, Square) -> Option<Piece>,   // board.piece_at
    legalMoves: seq<Move> -> seq<Move>,              // board.legal_moves, in the library's order
    isLegal: (seq<Move>, Move) -> bool,              // move in board.legal_moves
    isCapture: (seq<Move>, Move) -> bool,            // board.is_capture
    turn: seq<Move> -> Side,                         // board.turn
    status: seq<Move> -> Status)                     // the six terminal predicates

  /** The engine's reply to the position after a history. */
  type Engine = seq<Move> -> Move

  datatype Sound = MoveSound | CaptureSound

  /** The loop's state: the pushed plies, the selected square, and the game-over banner. */
  datatype GameState = GameState(moves: seq<Move>, selected: Option<Square>, gameOver: bool, resultText: string)

  /**
   * The events the loop reacts to; every other event is ignored. A mouse-down carries no
   * position of its own: the handler reads the pointer position when it runs.
   */
  datatype Event = Quit | MouseDown | OtherEvent

  /**
   * One poll of the event queue: the frame's events and the pointer position. The position is
   * updated only when the queue is polled, so every click handled in the frame reads it.
   */
  datatype Poll = Poll(events: seq<Event>, x: int, y: int)

  const Initial := GameState([], None, false, "")

  /** The status chain applied to the board after `h`. */
  function Outcome(lib: Library, h: seq<Move>): Option<string>
  {
    Verdict(lib.status(h), lib.turn(h))
  }

  /** The sound played for pushing `m` after `h`. */
  function PlySound(lib: Library, h: seq<Move>, m: Move): Sound
  {
    if lib.isCapture(h, m) then CaptureSound else MoveSound
  }

  /** The move built from the selected square and the clicked square. */
  function Candidate(from: Square, to: Square): Move
  {
    Move(from, to, None)
  }

  /**
   * A legal human move `m`: push it, run the status chain, and unless it ends the game push
   * the engine's reply and run the chain again. The selection is cleared.
   */
  function PlayMove(lib: Library, engine: Engine, s: GameState, m: Move): (GameState, seq<Sound>)
  {
    var h1 := s.moves + [m];
    var sound1 := PlySound(lib, s.moves, m);
    if Outcome(lib, h1).Some? then
      (GameState(h1, None, true, Outcome(lib, h1).value), [sound1])
    else
      var h2 := h1 + [engine(h1)];
      var sounds := [sound1, PlySound(lib, h1, engine(h1))];
      if Outcome(lib, h2).Some? then (GameState(h2, None, true, Outcome(lib, h2).value), sounds)
      else (GameState(h2, None, false, s.resultText), sounds)
  }

  /** One mouse-down on `square`: the state afterwards and the sounds it played. */
  function ClickStep(lib: Library, engine: Engine, s: GameState, square: Square): (GameState, seq<Sound>)
  {
    if s.gameOver then (s, [])
    else if s.selected.None? then
      (if lib.pieceAt(s.moves, square).Some? then s.(selected := Some(square)) else s, [])
    else if !lib.isLegal(s.moves, Candidate(s.selected.value, square)) then
      (s.(selected := None), [])
    else PlayMove(lib, engine, s, Candidate(s.selected.value, square))
  }

  /** One event, with the square under the pointer while the frame is handled. */
  function EventStep(lib: Library, engine: Engine, s: GameState, e: Event, square: Square): (GameState, seq<Sound>)
  {
    match e
    case MouseDown => ClickStep(lib, engine, s, square)
    case _ => (s, [])
  }

  /** The events of one frame, handled in order; every click reads the same pointer square. */
  function ProcessEvents(lib: Library, engine: Engine, s: GameState, events: seq<Event>, square: Square): (GameState, seq<Sound>)
    decreases |events|
  {
    if events == [] then (s, [])
    else
      var n := |events| - 1;
      var before := ProcessEvents(lib, engine, s, events[..n], square);
      var last := EventStep(lib, engine, before.0, events[n], square);
      (last.0, before.1 + last.1)
  }

  /** Whether a batch of events holds a quit event. */
  predicate HasQuit(events: seq<Event>)
  {
    exists i :: 0 <= i < |events| && events[i].Quit?
  }

  /** The ply at index i was a human move: legal when made, built from two clicks. */
  predicate HumanPly(lib: Library, h: seq<Move>, i: int)
    requires 0 <= i < |h|
  {
    lib.isLegal(h[..i], h[i]) && h[i].promotion.None?
  }

  /**
   * What the loop keeps true between events. The human plays the even plies and the engine
   * the odd ones; a history of odd length means the game ended on the human's move; the
   * banner is the status chain's verdict on the current board; a selected square holds a piece.
   */
  predicate Consistent(lib: Library, engine: Engine, s: GameState)
  {
    && (forall i :: 0 <= i < |s.moves| && i % 2 == 0 ==> HumanPly(lib, s.moves, i))
    && (forall i :: 0 <= i < |s.moves| && i % 2 == 1 ==> s.moves[i] == engine(s.moves[..i]))
    && (|s.moves| % 2 == 1 ==> s.gameOver)
    && (s.gameOver ==> s.selected.None? && Outcome(lib, s.moves) == Some(s.resultText))
    && (!s.gameOver ==> s.resultText == "" && (s.moves != [] ==> Outcome(lib, s.moves) == None))
    && (s.selected.Some? ==> lib.pieceAt(s.moves, s.selected.value).Some?)
  }

  lemma InitialConsistent(lib: Library, engine: Engine)
    ensures Consistent(lib, engine, Initial)
  {
  }

  /** Once the game is over a click changes nothing and plays nothing. */
  lemma ClickAfterGameOver(lib: Library, engine: Engine, s: GameState, square: Square)
    requires s.gameOver
    ensures ClickStep(lib, engine, s, square) == (s, [])
  {
  }

  /** With nothing selected, a click selects the square if it holds a piece of either colour. */
  lemma ClickSelects(lib: Library, engine: Engine, s: GameState, square: Square)
    requires !s.gameOver && s.selected.None?
    ensures var (t, sounds) := ClickStep(lib, engine, s, square);
      && t.moves == s.moves && !t.gameOver && t.resultText == s.resultText && sounds == []
      && t.selected == (if lib.pieceAt(s.moves, square).Some? then Some(square) else None)
  {
  }

  /** With a selection, a click whose move the library rejects only clears the selection. */
  lemma ClickIllegalClears(lib: Library, engine: Engine, s: GameState, square: Square)
    requires !s.gameOver && s.selected.Some?
    requires !lib.isLegal(s.moves, Candidate(s.selected.value, square))
    ensures ClickStep(lib, engine, s, square) == (s.(selected := None), [])
  {
  }

  /**
   * With a selection, a legal move is pushed and the selection cleared. The engine is asked
   * exactly when the status chain finds nothing after the human move, and its reply is pushed
   * whatever it is; the game is over exactly when the chain finds something on the final board.
   */
  lemma ClickLegal(lib: Library, engine: Engine, s: GameState, square: Square)
    requires !s.gameOver && s.selected.Some?
    requires lib.isLegal(s.moves, Candidate(s.selected.value, square))
    ensures var (t, sounds) := ClickStep(lib, engine, s, square);
      var m := Candidate(s.selected.value, square);
      var h1 := s.moves + [m];
      && t.selected.None?
      && t.moves == (if Outcome(lib, h1).Some? then h1 else h1 + [engine(h1)])
      && (t.gameOver <==> Outcome(lib, t.moves).Some?)
      && (t.gameOver ==> Some(t.resultText) == Outcome(lib, t.moves))
      && (!t.gameOver ==> t.resultText == s.resultText)
      && |sounds| == |t.moves| - |s.moves|
      && sounds[0] == PlySound(lib, s.moves, m)
      && (|sounds| == 2 ==> sounds[1] == PlySound(lib, h1, engine(h1)))
  {
  }

  /**
   * The engine's reply is pushed even when the library would not list it as legal: nothing
   * between the query and the push looks at it.
   */
  lemma EngineReplyUnchecked(lib: Library, engine: Engine, s: GameState, square: Square)
    requires !s.gameOver && s.selected.Some?
    requires lib.isLegal(s.moves, Candidate(s.selected.value, square))
    requires Outcome(lib, s.moves + [Candidate(s.selected.value, square)]).None?
    ensures var h1 := s.moves + [Candidate(s.selected.value, square)];
      ClickStep(lib, engine, s, square).0.moves == h1 + [engine(h1)]
  {
  }

  /** A click never removes a ply, adds at most two, and plays one sound per added ply. */
  lemma ClickAddsAtMostTwo(lib: Library, engine: Engine, s: GameState, square: Square)
    ensures var (t, sounds) := ClickStep(lib, engine, s, square);
      && |s.moves| <= |t.moves| <= |s.moves| + 2
      && t.moves[..|s.moves|] == s.moves
      && |sounds| == |t.moves| - |s.moves|
      && (t.moves != s.moves ==> t.selected.None?)
      && (s.gameOver ==> t.gameOver)
  {
    var (t, sounds) := ClickStep(lib, engine, s, square);
    if !s.gameOver && s.selected.Some? && lib.isLegal(s.moves, Candidate(s.selected.value, square)) {
      ClickLegal(lib, engine, s, square);
      assert (t.moves)[..|s.moves|] == s.moves;
    }
  }

  /** Appending plies leaves every earlier prefix and ply as it was. */
  lemma ExtendPrefixes(h: seq<Move>, extra: seq<Move>)
    ensures forall i :: 0 <= i <= |h| ==> (h + extra)[..i] == h[..i]
    ensures forall i :: 0 <= i < |h| ==> (h + extra)[i] == h[i]
  {
    forall i | 0 <= i <= |h|
      ensures (h + extra)[..i] == h[..i]
    {
      assert forall k :: 0 <= k < i ==> (h + extra)[..i][k] == h[..i][k];
    }
  }

  /** A consistent state stays consistent through a pushed human ply, after `h`. */
  lemma PushKeepsPlies(lib: Library, engine: Engine, h: seq<Move>, m: Move)
    requires forall i :: 0 <= i < |h| && i % 2 == 0 ==> HumanPly(lib, h, i)
    requires forall i :: 0 <= i < |h| && i % 2 == 1 ==> h[i] == engine(h[..i])
    requires |h| % 2 == 0 && lib.isLegal(h, m) && m.promotion.None?
    ensures var h1 := h + [m];
      && (forall i :: 0 <= i < |h1| && i % 2 == 0 ==> HumanPly(lib, h1, i))
      && (forall i :: 0 <= i < |h1| && i % 2 == 1 ==> h1[i] == engine(h1[..i]))
    ensures var h2 := h + [m] + [engine(h + [m])];
      && (forall i :: 0 <= i < |h2| && i % 2 == 0 ==> HumanPly(lib, h2, i))
      && (forall i :: 0 <= i < |h2| && i % 2 == 1 ==> h2[i] == engine(h2[..i]))
  {
    var h1 := h + [m];
    var h2 := h1 + [engine(h1)];
    ExtendPrefixes(h, [m]);
    ExtendPrefixes(h1, [engine(h1)]);
    assert h1[..|h|] == h;
    assert h2[..|h1|] == h1;
    forall i | 0 <= i < |h1| && i % 2 == 0
      ensures HumanPly(lib, h1, i) && HumanPly(lib, h2, i)
    {
      if i < |h| {
        assert HumanPly(lib, h, i);
      }
    }
  }

  /** Every click keeps the loop's invariant. */
  lemma ClickKeepsConsistent(lib: Library, engine: Engine, s: GameState, square: Square)
    requires Consistent(lib, engine, s)
    ensures Consistent(lib, engine, ClickStep(lib, engine, s, square).0)
  {
    if !s.gameOver && s.selected.Some? {
      var m := Candidate(s.selected.value, square);
      if lib.isLegal(s.moves, m) {
        PushKeepsPlies(lib, engine, s.moves, m);
        ClickLegal(lib, engine, s, square);
      }
    }
  }

  /** Every handled batch of events keeps the loop's invariant, by induction on its length. */
  lemma {:induction false} EventsKeepConsistent(lib: Library, engine: Engine, s: GameState, events: seq<Event>, square: Square)
    requires Consistent(lib, engine, s)
    ensures Consistent(lib, engine, ProcessEvents(lib, engine, s, events, square).0)
    decreases |events|
  {
    if events != [] {
      var n := |events| - 1;
      EventsKeepConsistent(lib, engine, s, events[..n], square);
      var t := ProcessEvents(lib, engine, s, events[..n], square).0;
      if events[n].MouseDown? {
        ClickKeepsConsistent(lib, engine, t, square);
      }
    }
  }

  /** After game over no batch of events changes anything or plays anything. */
  lemma {:induction false} EventsAfterGameOver(lib: Library, engine: Engine, s: GameState, events: seq<Event>, square: Square)
    requires s.gameOver
    ensures ProcessEvents(lib, engine, s, events, square).0 == s
    ensures ProcessEvents(lib, engine, s, events, square).1 == []
    decreases |events|
  {
    if events != [] {
      var n := |events| - 1;
      EventsAfterGameOver(lib, engine, s, events[..n], square);
      var e := events[n];
      if e.MouseDown? {
        ClickAfterGameOver(lib, engine, s, square);
      }
      var last := EventStep(lib, engine, s, e, square);
      assert last.0 == s && last.1 == [];
    }
  }

  /** A batch of events only appends plies, never undoes game over, and sounds once per ply. */
  lemma {:induction false} EventsOnlyAppend(lib: Library, engine: Engine, s: GameState, events: seq<Event>, square: Square)
    ensures var (t, sounds) := ProcessEvents(lib, engine, s, events, square);
      && |s.moves| <= |t.moves| <= |s.moves| + 2 * |events|
      && t.moves[..|s.moves|] == s.moves
      && |sounds| == |t.moves| - |s.moves|
      && (s.gameOver ==> t.gameOver)
    decreases |events|
  {
    if events != [] {
      var n := |events| - 1;
      EventsOnlyAppend(lib, engine, s, events[..n], square);
      var (t, sounds) := ProcessEvents(lib, engine, s, events[..n], square);
      if events[n].MouseDown? {
        ClickAddsAtMostTwo(lib, engine, t, square);
        var u := ClickStep(lib, engine, t, square).0;
        assert u.moves[..|t.moves|] == t.moves;
        assert u.moves[..|s.moves|] == u.moves[..|t.moves|][..|s.moves|];
      }
    }
  }

  /**
   * Two clicks in one frame read the same pointer square: with nothing selected, the first
   * selects the piece there and the second tries the move from that square to itself, so a
   * library that rejects that move leaves the frame with the state it started from.
   */
  lemma DoubleClickInOneFrame(lib: Library, engine: Engine, s: GameState, square: Square)
    requires !s.gameOver && s.selected.None? && lib.pieceAt(s.moves, square).Some?
    requires !lib.isLegal(s.moves, Candidate(square, square))
    ensures ProcessEvents(lib, engine, s, [MouseDown, MouseDown], square) == (s, [])
  {
    var events := [MouseDown, MouseDown];
    var selecting := s.(selected := Some(square));
    assert [MouseDown][..0] == [];
    assert ProcessEvents(lib, engine, s, [], square) == (s, []);
    assert EventStep(lib, engine, s, MouseDown, square) == (selecting, []);
    var none: seq<Sound> := [];
    assert none + none == none;
    assert ProcessEvents(lib, engine, s, [MouseDown], square) == (selecting, []);
    assert events[..1] == [MouseDown];
    assert ClickStep(lib, engine, selecting, square) == (s, []);
  }

  /** The square under the pointer of an on-window position. */
  function PointerSquare(x: int, y: int): (square: Square)
    requires OnWindow(x, y)
    ensures square == SquareUnderMouse(x, y)
  {
    MouseSquare(x, y);
    SquareUnderMouse(x, y)
  }

  /** Every poll's pointer position lies on the window. */
  predicate PointersOnWindow(polls: seq<Poll>)
  {
    forall k :: 0 <= k < |polls| ==> OnWindow(polls[k].x, polls[k].y)
  }

  /** Whether some poll of `polls` holds a quit event. */
  predicate AnyQuit(polls: seq<Poll>)
  {
    exists k :: 0 <= k < |polls| && HasQuit(polls[k].events)
  }

  /**
   * The `while running` loop over a supply of polls: the state after it and the number of
   * frames shown. Each frame's events are handled with that frame's pointer square; the loop
   * stops after the first frame that holds a quit event.
   */
  function RunFrames(lib: Library, engine: Engine, s: GameState, polls: seq<Poll>): (r: (GameState, nat))
    requires PointersOnWindow(polls)
    ensures r.1 <= |polls|
    ensures !AnyQuit(polls) ==> r.1 == |polls|
    ensures AnyQuit(polls) ==> 0 < r.1 && HasQuit(polls[r.1 - 1].events) && !AnyQuit(polls[..r.1 - 1])
    decreases |polls|
  {
    if polls == [] then (s, 0)
    else
      var n := |polls| - 1;
      assert PointersOnWindow(polls[..n]);
      var prev := RunFrames(lib, engine, s, polls[..n]);
      if AnyQuit(polls[..n]) then
        assert polls[..n][..prev.1 - 1] == polls[..prev.1 - 1];
        assert polls[..n][prev.1 - 1] == polls[prev.1 - 1];
        prev
      else
        var p := polls[n];
        assert polls[..n + 1 - 1] == polls[..n];
        (ProcessEvents(lib, engine, prev.0, p.events, PointerSquare(p.x, p.y)).0, n + 1)
  }

  /** A quit among the first k polls is also among any longer prefix. */
  lemma AnyQuitGrows(polls: seq<Poll>, k: int, n: int)
    requires 0 <= k <= n <= |polls| && AnyQuit(polls[..k])
    ensures AnyQuit(polls[..n])
  {
    var j :| 0 <= j < k && HasQuit(polls[..k][j].events);
    assert polls[..n][j] == polls[..k][j];
  }

  /** One more poll holds a quit exactly when the earlier ones did or the new one does. */
  lemma AnyQuitExtend(polls: seq<Poll>, i: int)
    requires 0 <= i < |polls|
    ensures AnyQuit(polls[..i + 1]) <==> AnyQuit(polls[..i]) || HasQuit(polls[i].events)
  {
    assert polls[..i + 1][i] == polls[i];
    if AnyQuit(polls[..i]) {
      AnyQuitGrows(polls, i, i + 1);
    }
    if AnyQuit(polls[..i + 1]) && !HasQuit(polls[i].events) {
      var j :| 0 <= j < i + 1 && HasQuit(polls[..i + 1][j].events);
      assert polls[..i][j] == polls[..i + 1][j];
    }
  }

  /** While no quit has been seen, one more poll runs one more frame. */
  lemma RunFramesExtend(lib: Library, engine: Engine, s: GameState, polls: seq<Poll>, i: int)
    requires PointersOnWindow(polls)
    requires 0 <= i < |polls| && !AnyQuit(polls[..i])
    ensures PointersOnWindow(polls[..i]) && PointersOnWindow(polls[..i + 1])
    ensures RunFrames(lib, engine, s, polls[..i + 1]) ==
      (ProcessEvents(lib, engine, RunFrames(lib, engine, s, polls[..i]).0, polls[i].events,
                     PointerSquare(polls[i].x, polls[i].y)).0, i + 1)
  {
    assert PointersOnWindow(polls[..i]);
    assert PointersOnWindow(polls[..i + 1]);
    assert polls[..i + 1][..i] == polls[..i];
    assert polls[..i + 1][i] == polls[i];
  }

  /** The frames after the first one with a quit event are never handled. */
  lemma {:induction false} RunFramesStop(lib: Library, engine: Engine, s: GameState, polls: seq<Poll>, k: int)
    requires PointersOnWindow(polls)
    requires 0 <= k <= |polls| && AnyQuit(polls[..k])
    ensures PointersOnWindow(polls[..k])
    ensures RunFrames(lib, engine, s, polls) == RunFrames(lib, engine, s, polls[..k])
    decreases |polls|
  {
    assert PointersOnWindow(polls[..k]);
    if k < |polls| {
      var n := |polls| - 1;
      AnyQuitGrows(polls, k, n);
      assert PointersOnWindow(polls[..n]);
      assert RunFrames(lib, engine, s, polls) == RunFrames(lib, engine, s, polls[..n]);
      assert polls[..n][..k] == polls[..k];
      RunFramesStop(lib, engine, s, polls[..n], k);
    } else {
      assert polls[..k] == polls;
    }
  }

  /** Every run of the loop keeps the loop's invariant. */
  lemma {:induction false} RunFramesKeepConsistent(lib: Library, engine: Engine, s: GameState, polls: seq<Poll>)
    requires PointersOnWindow(polls)
    requires Consistent(lib, engine, s)
    ensures Consistent(lib, engine, RunFrames(lib, engine, s, polls).0)
    decreases |polls|
  {
    if polls != [] {
      var n := |polls| - 1;
      assert PointersOnWindow(polls[..n]);
      RunFramesKeepConsistent(lib, engine, s, polls[..n]);
      if !AnyQuit(polls[..n]) {
        var p := polls[n];
        EventsKeepConsistent(lib, engine, RunFrames(lib, engine, s, polls[..n]).0, p.events, PointerSquare(p.x, p.y));
      }
    }
  }

  /** The text drawn when the game is over, with its size, colour and position. */
  datatype Banner = Banner(text: string, size: int, color: Rgb, x: int, y: int)

  /** What one frame shows and plays. */
  datatype Frame = Frame(
    canvas: seq<seq<Rgb>>,
    sprites: seq<seq<Option<Piece>>>,
    banner: Option<Banner>,
    sounds: seq<Sound>)

  function BannerFor(s: GameState): (b: Option<Banner>)
    ensures b.Some? <==> s.gameOver
    ensures b.Some? ==> b.value.text == s.resultText
  {
    if s.gameOver
    then Some(Banner(s.resultText, 36, Rgb(255, 0, 0), WindowSize / 2 - 100, WindowSize / 2 - 20))
    else None
  }

  /** The main loop's state; `lib` and `engine` stand for the board library and Stockfish. */
  class Game {
    const lib: Library
    const engine: Engine
    var moves: seq<Move>
    var selected: Option<Square>
    var gameOver: bool
    var resultText: string
    var running: bool

    function State(): GameState
      reads this
    {
      GameState(moves, selected, gameOver, resultText)
    }

    ghost predicate Valid()
      reads this
    {
      Consistent(lib, engine, State())
    }

    constructor (lib: Library, engine: Engine)
      ensures this.lib == lib && this.engine == engine
      ensures State() == Initial && running
      ensures Valid()
    {
      this.lib := lib;
      this.engine := engine;
      moves := [];
      selected := None;
      gameOver := false;
      resultText := "";
      running := true;
    }

    /** Runs the status chain on the current board; sets the banner if it finds something. */
    method CheckStatus()
      modifies this`gameOver, this`resultText
      ensures Outcome(lib, moves).Some? ==> gameOver && resultText == Outcome(lib, moves).value
      ensures Outcome(lib, moves).None? ==> gameOver == old(gameOver) && resultText == old(resultText)
    {
      var st := lib.status(moves);
      if st.checkmate {
        gameOver := true;
        resultText := "Checkmate! " + (if lib.turn(moves) == Black then "White wins!" else "Black wins!");
      } else if st.stalemate {
        gameOver := true;
        resultText := "Stalemate!";
      } else if st.insufficientMaterial {
        gameOver := true;
        resultText := "Draw! Insufficient material!";
      } else if st.seventyfiveMoves {
        gameOver := true;
        resultText := "Draw! 75-move rule!";
      } else if st.fivefoldRepetition {
        gameOver := true;
        resultText := "Draw! Fivefold repetition!";
      } else if st.variantDraw {
        gameOver := true;
        resultText := "Draw!";
      }
    }

    /** Pushes a ply and returns the sound played for it. */
    method Push(m: Move) returns (sound: Sound)
      modifies this`moves
      ensures moves == old(moves) + [m]
      ensures sound == PlySound(lib, old(moves), m)
    {
      sound := if lib.isCapture(moves, m) then CaptureSound else MoveSound;
      moves := moves + [m];
    }

    /** The mouse-down handler. */
    method Click(x: int, y: int) returns (sounds: seq<Sound>)
      requires OnWindow(x, y)
      modifies this`moves, this`selected, this`gameOver, this`resultText
      ensures 0 <= SquareUnderMouse(x, y) < 64
      ensures (State(), sounds) == ClickStep(lib, engine, old(State()), SquareUnderMouse(x, y))
      ensures old(Valid()) ==> Valid()
    {
      ghost var s := State();
      MouseSquare(x, y);
      sounds := [];
      if gameOver {
        return;
      }
      var square := SquareUnderMouse(x, y);
      if Consistent(lib, engine, s) {
        ClickKeepsConsistent(lib, engine, s, square);
      }
      if selected.None? {
        if lib.pieceAt(moves, square).Some? {
          selected := Some(square);
        }
      } else {
        var move := Candidate(selected.value, square);
        if lib.isLegal(moves, move) {
          var sound := Push(move);
          sounds := [sound];
          selected := None;
          CheckStatus();
          if !gameOver {
            var reply := engine(moves);
            sound := Push(reply);
            sounds := sounds + [sound];
            CheckStatus();
            assert sounds == [PlySound(lib, s.moves, move), PlySound(lib, s.moves + [move], engine(s.moves + [move]))];
          }
        } else {
          selected := None;
        }
      }
    }

    /**
     * The inner `for event` loop of one frame; every click reads the pointer position (x, y)
     * as it was when the queue was polled.
     */
    method HandleEvents(events: seq<Event>, x: int, y: int) returns (sounds: seq<Sound>)
      requires OnWindow(x, y)
      modifies this`moves, this`selected, this`gameOver, this`resultText, this`running
      ensures (State(), sounds) == ProcessEvents(lib, engine, old(State()), events, PointerSquare(x, y))
      ensures running <==> old(running) && !HasQuit(events)
      ensures old(Valid()) ==> Valid()
    {
      var square := PointerSquare(x, y);
      sounds := [];
      for i := 0 to |events|
        invariant (State(), sounds) == ProcessEvents(lib, engine, old(State()), events[..i], square)
        invariant running <==> old(running) && !HasQuit(events[..i])
        invariant old(Valid()) ==> Valid()
      {
        assert events[..i + 1][..i] == events[..i] && events[..i + 1][i] == events[i];
        var e := events[i];
        ghost var before := State();
        ghost var played := sounds;
        if e.Quit? {
          running := false;
        }
        if e.MouseDown? {
          var more := Click(x, y);
          sounds := sounds + more;
        } else {
          assert sounds == played + [];
        }
        assert State() == EventStep(lib, engine, before, e, square).0;
        assert sounds == played + EventStep(lib, engine, before, e, square).1;
      }
      assert events[..|events|] == events;
    }

    /** One pass of the `while running` loop: handle the polled events, then draw. */
    method Step(events: seq<Event>, x: int, y: int) returns (frame: Frame)
      requires OnWindow(x, y)
      modifies this`moves, this`selected, this`gameOver, this`resultText, this`running
      ensures (State(), frame.sounds) == ProcessEvents(lib, engine, old(State()), events, PointerSquare(x, y))
      ensures running <==> old(running) && !HasQuit(events)
      ensures old(Valid()) ==> Valid()
      ensures forall row, col :: 0 <= row < BoardSize && 0 <= col < BoardSize ==>
        |frame.canvas| == BoardSize && |frame.canvas[row]| == BoardSize &&
        frame.canvas[row][col] == CellColor(selected, HighlightedMoves(lib.legalMoves(moves), selected), Cell(row, col))
      ensures forall row, col :: 0 <= row < BoardSize && 0 <= col < BoardSize ==>
        |frame.sprites| == BoardSize && |frame.sprites[row]| == BoardSize &&
        frame.sprites[row][col] == lib.pieceAt(moves, CellSquare(Cell(row, col)))
      ensures frame.banner == BannerFor(State())
    {
      var sounds := HandleEvents(events, x, y);
      var targets := HighlightedMoves(lib.legalMoves(moves), selected);
      var canvas := DrawBoard(selected, targets);
      var h := moves;
      var sprites := DrawPieces((sq: Square) => lib.pieceAt(h, sq));
      frame := Frame(canvas, sprites, BannerFor(State()), sounds);
    }

    /**
     * The `while running` loop over a bounded supply of polls: it ends in the state RunFrames
     * gives, after the first frame that holds a quit event or when the polls run out.
     */
    method Run(polls: seq<Poll>) returns (shown: nat)
      requires running
      requires PointersOnWindow(polls)
      modifies this`moves, this`selected, this`gameOver, this`resultText, this`running
      ensures (State(), shown) == RunFrames(lib, engine, old(State()), polls)
      ensures running <==> !AnyQuit(polls)
      ensures |old(moves)| <= |moves| && moves[..|old(moves)|] == old(moves)
      ensures old(gameOver) ==> State() == old(State())
      ensures old(Valid()) ==> Valid()
    {
      shown := 0;
      while running && shown < |polls|
        invariant shown <= |polls|
        invariant PointersOnWindow(polls[..shown])
        invariant (State(), shown) == RunFrames(lib, engine, old(State()), polls[..shown])
        invariant running <==> !AnyQuit(polls[..shown])
        invariant |old(moves)| <= |moves| && moves[..|old(moves)|] == old(moves)
        invariant old(gameOver) ==> State() == old(State())
        invariant old(Valid()) ==> Valid()
      {
        var p := polls[shown];
        ghost var before := State();
        ghost var square := PointerSquare(p.x, p.y);
        EventsOnlyAppend(lib, engine, before, p.events, square);
        if before.gameOver {
          EventsAfterGameOver(lib, engine, before, p.events, square);
        }
        if Consistent(lib, engine, before) {
          EventsKeepConsistent(lib, engine, before, p.events, square);
        }
        var frame := Step(p.events, p.x, p.y);
        assert moves[..|old(moves)|] == moves[..|before.moves|][..|old(moves)|];
        RunFramesExtend(lib, engine, old(State()), polls, shown);
        AnyQuitExtend(polls, shown);
        shown := shown + 1;
      }
      if shown < |polls| {
        RunFramesStop(lib, engine, old(State()), polls, shown);
        AnyQuitGrows(polls, shown, |polls|);
        assert polls[..|polls|] == polls;
      } else {
        assert polls[..shown] == polls;
      }
    }
  }
}
