/**
 * The game-status chain run after every ply: the first of six library predicates that holds
 * ends the game with a fixed text.
 */
module GameStatus {
  import opened ChessTypes

  /** The library's terminal predicates on the current board, in the order the script asks them. */
  datatype Status = Status(
    checkmate: bool,
    stalemate: bool,
    insufficientMaterial: bool,
    seventyfiveMoves: bool,
    fivefoldRepetition: bool,
    variantDraw: bool)

  /** The checkmate text; `turn` is the side to move, which is the side that was mated. */
  function CheckmateText(turn: Side): string
  {
    "Checkmate! " + (if turn == Black then "White wins!" else "Black wins!")
  }

  /** The result text of the first predicate that holds, or None when the game goes on. */
  function Verdict(st: Status, turn: Side): Option<string>
  {
    if st.checkmate then Some(CheckmateText(turn))
    else if st.stalemate then Some("Stalemate!")
    else if st.insufficientMaterial then Some("Draw! Insufficient material!")
    else if st.seventyfiveMoves then Some("Draw! 75-move rule!")
    else if st.fivefoldRepetition then Some("Draw! Fivefold repetition!")
    else if st.variantDraw then Some("Draw!")
    else None
  }

  /** Reference table of the precedence: the predicates in priority order ... */
  function Conditions(st: Status): seq<bool>
  {
    [st.checkmate, st.stalemate, st.insufficientMaterial,
     st.seventyfiveMoves, st.fivefoldRepetition, st.variantDraw]
  }

  /** ... and the text each of them sets. */
  function Texts(turn: Side): seq<string>
  {
    [CheckmateText(turn), "Stalemate!", "Draw! Insufficient material!",
     "Draw! 75-move rule!", "Draw! Fivefold repetition!", "Draw!"]
  }

  /** The index of the first true entry, or |bs| when there is none. */
  function FirstTrue(bs: seq<bool>): (i: nat)
    ensures i <= |bs|
    ensures i < |bs| ==> bs[i]
    ensures forall j :: 0 <= j < i ==> !bs[j]
  {
    if bs == [] then 0
    else if bs[0] then 0
    else 1 + FirstTrue(bs[1..])
  }

  /** The chain agrees with the table: the first true predicate wins and sets its own text. */
  lemma VerdictIsFirstTrue(st: Status, turn: Side)
    ensures FirstTrue(Conditions(st)) <= 6
    ensures FirstTrue(Conditions(st)) < 6 ==> Verdict(st, turn) == Some(Texts(turn)[FirstTrue(Conditions(st))])
    ensures FirstTrue(Conditions(st)) == 6 ==> Verdict(st, turn) == None
  {
    var bs := Conditions(st);
    assert |bs| == 6 && bs[0] == st.checkmate && bs[1] == st.stalemate;
    assert bs[2] == st.insufficientMaterial && bs[3] == st.seventyfiveMoves;
    assert bs[4] == st.fivefoldRepetition && bs[5] == st.variantDraw;
    var k := if st.checkmate then 0 else if st.stalemate then 1
      else if st.insufficientMaterial then 2 else if st.seventyfiveMoves then 3
      else if st.fivefoldRepetition then 4 else if st.variantDraw then 5 else 6;
    FirstTrueIs(bs, k);
  }

  /** An index whose entry is the first true one is what FirstTrue returns. */
  lemma FirstTrueIs(bs: seq<bool>, k: int)
    requires 0 <= k <= |bs|
    requires k < |bs| ==> bs[k]
    requires forall j :: 0 <= j < k ==> !bs[j]
    ensures FirstTrue(bs) == k
  {
  }

  /** The game goes on exactly when none of the six predicates holds. */
  lemma OngoingIffNoPredicate(st: Status, turn: Side)
    ensures Verdict(st, turn) == None <==> (forall j :: 0 <= j < 6 ==> !Conditions(st)[j])
  {
    VerdictIsFirstTrue(st, turn);
  }

  /** The six texts are pairwise distinct, for either side to move. */
  lemma TextsDistinct(t1: Side, t2: Side, i: int, j: int)
    requires 0 <= i < 6 && 0 <= j < 6
    ensures Texts(t1)[i] == Texts(t2)[j] ==> i == j && (i == 0 ==> t1 == t2)
  {
    if i == 0 && j == 0 && t1 != t2 {
      assert Texts(t1)[0][11] != Texts(t2)[0][11];
    }
  }

  /** The result text tells which rule ended the game, and for checkmate which side won. */
  lemma VerdictDeterminesReason(st1: Status, t1: Side, st2: Status, t2: Side)
    requires Verdict(st1, t1).Some? && Verdict(st1, t1) == Verdict(st2, t2)
    ensures FirstTrue(Conditions(st1)) == FirstTrue(Conditions(st2))
    ensures st1.checkmate ==> t1 == t2
  {
    VerdictIsFirstTrue(st1, t1);
    VerdictIsFirstTrue(st2, t2);
    TextsDistinct(t1, t2, FirstTrue(Conditions(st1)), FirstTrue(Conditions(st2)));
  }

  /** The checkmate text says "White wins!" exactly when Black is to move and mated. */
  lemma CheckmateWinner(st: Status, turn: Side)
    ensures Verdict(st, turn) == Some("Checkmate! White wins!") <==> st.checkmate && turn == Black
    ensures Verdict(st, turn) == Some("Checkmate! Black wins!") <==> st.checkmate && turn == White
  {
    var w := Status(true, false, false, false, false, false);
    assert CheckmateText(Black) == "Checkmate! White wins!";
    assert CheckmateText(White) == "Checkmate! Black wins!";
    if Verdict(st, turn) == Some("Checkmate! White wins!") {
      VerdictDeterminesReason(st, turn, w, Black);
    }
    if Verdict(st, turn) == Some("Checkmate! Black wins!") {
      VerdictDeterminesReason(st, turn, w, White);
    }
  }
}
