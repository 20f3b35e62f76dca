/**
 * Whole games played on the game object from page load: each click goes
 * through `HandleClick`, and the outcomes, the final board and the message
 * are checked against the winning combinations and the full-board test.
 */
module Scenarios {
  import opened Board
  import opened Rules
  import opened TicTacToe

  const E := Empty
  const x := Filled(X)
  const o := Filled(O)

  /** The board `startGame` leaves. */
  const Fresh := [E, E, E, E, E, E, E, E, E]

  /** A click on an empty cell that completes no line, while some cell stays empty, lets the game go on. */
  lemma ContinueAt(b: seq<Cell>, circleTurn: bool, i: nat, b': seq<Cell>, e: nat)
    requires |b| == Size && i < Size && b[i] == Empty
    requires b' == b[i := Filled(CurrentMark(circleTurn))]
    requires e < Size && b'[e] == Empty
    requires !CheckWin(b', CurrentMark(circleTurn))
    ensures Click(GameState(b, circleTurn), i) == (GameState(b', !circleTurn), Continue)
  {
    IsDrawIff(b');
  }

  /** A click on an empty cell that gives the current mark a line wins and keeps the turn. */
  lemma WinAt(b: seq<Cell>, circleTurn: bool, i: nat, b': seq<Cell>)
    requires |b| == Size && i < Size && b[i] == Empty
    requires b' == b[i := Filled(CurrentMark(circleTurn))]
    requires CheckWin(b', CurrentMark(circleTurn))
    ensures Click(GameState(b, circleTurn), i) == (GameState(b', circleTurn), Win)
  {
  }

  /** A click on the last empty cell that completes no line is a draw and keeps the turn. */
  lemma DrawAt(b: seq<Cell>, circleTurn: bool, i: nat, b': seq<Cell>)
    requires |b| == Size && i < Size && b[i] == Empty
    requires b' == b[i := Filled(CurrentMark(circleTurn))]
    requires forall k :: 0 <= k < Size ==> b'[k] != Empty
    requires !CheckWin(b', CurrentMark(circleTurn))
    ensures Click(GameState(b, circleTurn), i) == (GameState(b', circleTurn), Draw)
  {
    IsDrawIff(b');
  }

  /** `m` owns none of the eight lines of `b`, each ruled out cell by cell. */
  lemma NoWin(b: seq<Cell>, m: Mark)
    requires |b| == Size
    requires var f := Filled(m);
      && !(b[0] == f && b[1] == f && b[2] == f)
      && !(b[3] == f && b[4] == f && b[5] == f)
      && !(b[6] == f && b[7] == f && b[8] == f)
      && !(b[0] == f && b[3] == f && b[6] == f)
      && !(b[1] == f && b[4] == f && b[7] == f)
      && !(b[2] == f && b[5] == f && b[8] == f)
      && !(b[0] == f && b[4] == f && b[8] == f)
      && !(b[2] == f && b[4] == f && b[6] == f)
    ensures !CheckWin(b, m)
  {
    CheckWinExplicit(b, m);
  }

  // The boards of the top-row game X:0, O:3, X:1, O:4, X:2.
  const T1 := [x, E, E, E, E, E, E, E, E]
  const T2 := [x, E, E, o, E, E, E, E, E]
  const T3 := [x, x, E, o, E, E, E, E, E]
  const T4 := [x, x, E, o, o, E, E, E, E]
  const T5 := [x, x, x, o, o, E, E, E, E]

  lemma TopRowClicks()
    ensures Click(GameState(Fresh, false), 0) == (GameState(T1, true), Continue)
    ensures Click(GameState(T1, true), 3) == (GameState(T2, false), Continue)
    ensures Click(GameState(T2, false), 1) == (GameState(T3, true), Continue)
    ensures Click(GameState(T3, true), 4) == (GameState(T4, false), Continue)
    ensures Click(GameState(T4, false), 2) == (GameState(T5, false), Win)
  {
    assert Fresh[0 := x] == T1 && T1[3 := o] == T2 && T2[1 := x] == T3 && T3[4 := o] == T4 && T4[2 := x] == T5;
    NoWin(T1, X); ContinueAt(Fresh, false, 0, T1, 1);
    NoWin(T2, O); ContinueAt(T1, true, 3, T2, 1);
    NoWin(T3, X); ContinueAt(T2, false, 1, T3, 2);
    NoWin(T4, O); ContinueAt(T3, true, 4, T4, 2);
    CheckWinExplicit(T5, X); WinAt(T4, false, 2, T5);
  }

  /**
   * X completes the top row with its third mark: the fifth click wins, the
   * turn flag still names X, and the message announces X.
   */
  method TopRowGame() returns (outcomes: seq<Outcome>, board: seq<Cell>, circleTurn: bool, message: string)
    ensures outcomes == [Continue, Continue, Continue, Continue, Win]
    ensures board == [x, x, x, o, o, E, E, E, E] && !circleTurn
    ensures message == "X's Wins!"
  {
    var g := new Game();
    assert g.cells[..] == Fresh;
    TopRowClicks();
    var o1 := g.HandleClick(0);
    var o2 := g.HandleClick(3);
    var o3 := g.HandleClick(1);
    var o4 := g.HandleClick(4);
    var o5 := g.HandleClick(2);
    WinMessageNamesMark(false);
    outcomes, board, circleTurn, message := [o1, o2, o3, o4, o5], g.cells[..], g.circleTurn, g.messageText;
  }

  lemma AfterWinClicks()
    ensures Click(GameState(T5, false), 5) == (GameState([x, x, x, o, o, x, E, E, E], false), Win)
    ensures Click(GameState(Fresh, false), 5) == (GameState([E, E, E, E, E, x, E, E, E], true), Continue)
  {
    var t6 := [x, x, x, o, o, x, E, E, E];
    assert T5[5 := x] == t6;
    CheckWinExplicit(t6, X); WinAt(T5, false, 5, t6);
    var r1 := [E, E, E, E, E, x, E, E, E];
    assert Fresh[5 := x] == r1;
    NoWin(r1, X); ContinueAt(Fresh, false, 5, r1, 0);
  }

  /**
   * The engine does not lock the board after a win: a further click on an empty cell
   * places the winner's mark again (the turn was never passed on) and wins
   * again. Only `startGame` brings back a fresh board, on which the next
   * click places X.
   */
  method ClickAfterWinGame() returns (after: Outcome, afterBoard: seq<Cell>, restarted: Outcome, restartedBoard: seq<Cell>)
    ensures after == Win && afterBoard == [x, x, x, o, o, x, E, E, E]
    ensures restarted == Continue && restartedBoard == [E, E, E, E, E, x, E, E, E]
  {
    var g := new Game();
    assert g.cells[..] == Fresh;
    TopRowClicks();
    var o1 := g.HandleClick(0);
    var o2 := g.HandleClick(3);
    var o3 := g.HandleClick(1);
    var o4 := g.HandleClick(4);
    var o5 := g.HandleClick(2);
    AfterWinClicks();
    after := g.HandleClick(5);
    afterBoard := g.cells[..];
    g.StartGame();
    restarted := g.HandleClick(5);
    restartedBoard := g.cells[..];
  }

  /**
   * A second click on the same cell is ignored: the board keeps the single
   * X and O is still to move.
   */
  method ReclickGame() returns (first: Outcome, second: Outcome, board: seq<Cell>, circleTurn: bool)
    ensures first == Continue && second == Ignored
    ensures board == [x, E, E, E, E, E, E, E, E] && circleTurn
  {
    var g := new Game();
    assert g.cells[..] == Fresh;
    TopRowClicks();
    first := g.HandleClick(0);
    second := g.HandleClick(0);
    board, circleTurn := g.cells[..], g.circleTurn;
  }

  // The boards of the opening X:0, O:1, X:2, O:4, X:3, O:5.
  const L1 := [x, E, E, E, E, E, E, E, E]
  const L2 := [x, o, E, E, E, E, E, E, E]
  const L3 := [x, o, x, E, E, E, E, E, E]
  const L4 := [x, o, x, E, o, E, E, E, E]
  const L5 := [x, o, x, x, o, E, E, E, E]
  const L6 := [x, o, x, x, o, o, E, E, E]

  lemma OpeningClicks()
    ensures Click(GameState(Fresh, false), 0) == (GameState(L1, true), Continue)
    ensures Click(GameState(L1, true), 1) == (GameState(L2, false), Continue)
    ensures Click(GameState(L2, false), 2) == (GameState(L3, true), Continue)
    ensures Click(GameState(L3, true), 4) == (GameState(L4, false), Continue)
    ensures Click(GameState(L4, false), 3) == (GameState(L5, true), Continue)
    ensures Click(GameState(L5, true), 5) == (GameState(L6, false), Continue)
  {
    OpeningClicksFirst();
    OpeningClicksSecond();
  }

  lemma OpeningClicksFirst()
    ensures Click(GameState(Fresh, false), 0) == (GameState(L1, true), Continue)
    ensures Click(GameState(L1, true), 1) == (GameState(L2, false), Continue)
    ensures Click(GameState(L2, false), 2) == (GameState(L3, true), Continue)
  {
    assert Fresh[0 := x] == L1 && L1[1 := o] == L2 && L2[2 := x] == L3;
    NoWin(L1, X); ContinueAt(Fresh, false, 0, L1, 1);
    NoWin(L2, O); ContinueAt(L1, true, 1, L2, 2);
    NoWin(L3, X); ContinueAt(L2, false, 2, L3, 3);
  }

  lemma OpeningClicksSecond()
    ensures Click(GameState(L3, true), 4) == (GameState(L4, false), Continue)
    ensures Click(GameState(L4, false), 3) == (GameState(L5, true), Continue)
    ensures Click(GameState(L5, true), 5) == (GameState(L6, false), Continue)
  {
    assert L3[4 := o] == L4 && L4[3 := x] == L5 && L5[5 := o] == L6;
    NoWin(L4, O); ContinueAt(L3, true, 4, L4, 3);
    NoWin(L5, X); ContinueAt(L4, false, 3, L5, 5);
    NoWin(L6, O); ContinueAt(L5, true, 5, L6, 6);
  }

  // The boards after X:6 (a win) or after X:7, O:6, X:8 (a draw), following the opening.
  const L7 := [x, o, x, x, o, o, x, E, E]
  const D7 := [x, o, x, x, o, o, E, x, E]
  const D8 := [x, o, x, x, o, o, o, x, E]
  const D9 := [x, o, x, x, o, o, o, x, x]

  lemma LeftColumnClick()
    ensures Click(GameState(L6, false), 6) == (GameState(L7, false), Win)
  {
    assert L6[6 := x] == L7;
    CheckWinExplicit(L7, X); WinAt(L6, false, 6, L7);
  }

  lemma DrawingClicks()
    ensures Click(GameState(L6, false), 7) == (GameState(D7, true), Continue)
    ensures Click(GameState(D7, true), 6) == (GameState(D8, false), Continue)
  {
    assert L6[7 := x] == D7 && D7[6 := o] == D8;
    NoWin(D7, X); ContinueAt(L6, false, 7, D7, 6);
    NoWin(D8, O); ContinueAt(D7, true, 6, D8, 8);
  }

  lemma DrawClick()
    ensures Click(GameState(D8, false), 8) == (GameState(D9, false), Draw)
  {
    assert D8[8 := x] == D9;
    NoWin(D9, X); DrawAt(D8, false, 8, D9);
  }

  /**
   * X:0, O:1, X:2, O:4, X:3, O:5, X:6: the seventh click completes the left
   * column 0, 3, 6, so the game is won by X before the board is full.
   */
  method LeftColumnGame() returns (outcomes: seq<Outcome>, message: string)
    ensures outcomes == [Continue, Continue, Continue, Continue, Continue, Continue, Win]
    ensures message == "X's Wins!"
  {
    var g := new Game();
    assert g.cells[..] == Fresh;
    OpeningClicks();
    LeftColumnClick();
    var o1 := g.HandleClick(0);
    var o2 := g.HandleClick(1);
    var o3 := g.HandleClick(2);
    var o4 := g.HandleClick(4);
    var o5 := g.HandleClick(3);
    var o6 := g.HandleClick(5);
    var o7 := g.HandleClick(6);
    WinMessageNamesMark(false);
    outcomes, message := [o1, o2, o3, o4, o5, o6, o7], g.messageText;
  }

  /**
   * X:0, O:1, X:2, O:4, X:3, O:5, X:7, O:6, X:8: the ninth click fills the
   * board with no line for either mark, so the game ends in a draw.
   */
  method FullBoardDrawGame() returns (outcomes: seq<Outcome>, message: string)
    ensures outcomes == [Continue, Continue, Continue, Continue, Continue, Continue, Continue, Continue, Draw]
    ensures message == "Draw!"
  {
    var g := new Game();
    assert g.cells[..] == Fresh;
    OpeningClicks();
    DrawingClicks();
    DrawClick();
    var o1 := g.HandleClick(0);
    var o2 := g.HandleClick(1);
    var o3 := g.HandleClick(2);
    var o4 := g.HandleClick(4);
    var o5 := g.HandleClick(3);
    var o6 := g.HandleClick(5);
    var o7 := g.HandleClick(7);
    var o8 := g.HandleClick(6);
    var o9 := g.HandleClick(8);
    outcomes, message := [o1, o2, o3, o4, o5, o6, o7, o8, o9], g.messageText;
  }
}
