/**
 * The game object: the nine cells as an array, the turn flag and the text of
 * the winning message, updated in place by the page's handlers. `StartGame`,
 * `EndGame` and `HandleClick` are proved against `Start`, `EndGameMessage` and
 * `Click` of module Rules; `PlaceMark` and `SwapTurns` state their effect
 * directly.
 */
module TicTacToe {
  import opened Board
  import opened Rules

  class Game {
    /** The nine cells of the board, in index order. */
    const cells: array<Cell>
    /** False while X is to move. */
    var circleTurn: bool
    /** The text of the end-of-game message element. */
    var messageText: string

    ghost predicate Valid()
      reads this
    {
      cells.Length == Size
    }

    /** The board and the turn flag as a value. */
    function Snapshot(): (s: GameState)
      reads this, cells
      requires Valid()
      ensures WellFormed(s)
    {
      GameState(cells[..], circleTurn)
    }

    /** Page load: the cells exist and `startGame` runs once. */
    constructor ()
      ensures Valid() && fresh(cells)
      ensures Snapshot() == Start()
      ensures messageText == ""
    {
      cells := new Cell[Size](_ => Empty);
      circleTurn := false;
      messageText := "";
      new;
      assert cells[..] == Start().board;
    }

    /** `startGame`: X to move and every cell cleared, whatever the state before. */
    method StartGame()
      requires Valid()
      modifies this, cells
      ensures Valid()
      ensures Snapshot() == Start()
      ensures messageText == old(messageText)
    {
      circleTurn := false;
      for k := 0 to cells.Length
        modifies cells
        invariant forall j :: 0 <= j < k ==> cells[j] == Empty
      {
        cells[k] := Empty;
      }
      assert cells[..] == Start().board;
    }

    /** `placeMark`: the cell with index `i` now holds `m`; no other cell changes. */
    method PlaceMark(i: Index, m: Mark)
      requires Valid()
      modifies cells
      ensures cells[..] == old(cells[..])[i := Filled(m)]
    {
      cells[i] := Filled(m);
    }

    /** `swapTurns`: the other player is to move. */
    method SwapTurns()
      modifies this`circleTurn
      ensures circleTurn == !old(circleTurn)
    {
      circleTurn := !circleTurn;
    }

    /** `endGame`: the message announces a draw or, from the turn flag, the winner. */
    method EndGame(draw: bool)
      modifies this`messageText
      ensures messageText == EndGameMessage(draw, circleTurn)
    {
      if draw {
        messageText := "Draw!";
      } else {
        messageText := (if circleTurn then "O's" else "X's") + " Wins!";
      }
    }

    /**
     * `handleClick` on the cell with index `i`: place the current mark, then
     * end the game on a win, else on a draw, else swap turns. A click on a
     * filled cell changes nothing, as its one-shot listener has already fired.
     */
    method HandleClick(i: Index) returns (outcome: Outcome)
      requires Valid()
      modifies this, cells
      ensures Valid()
      ensures (Snapshot(), outcome) == Click(old(Snapshot()), i)
      ensures messageText ==
        if outcome == Win || outcome == Draw then EndGameMessage(outcome == Draw, circleTurn)
        else old(messageText)
    {
      if cells[i] != Empty {
        return Ignored;
      }
      var currentClass := CurrentMark(circleTurn);
      PlaceMark(i, currentClass);
      if CheckWin(cells[..], currentClass) {
        EndGame(false);
        outcome := Win;
      } else if IsDraw(cells[..]) {
        EndGame(true);
        outcome := Draw;
      } else {
        SwapTurns();
        outcome := Continue;
      }
    }
  }
}
