/**
 * The rules engine as pure functions over the game state: the state a fresh
 * game starts in, what one click on a cell does (place the current mark, test
 * for a win, then for a draw, and only then hand the move to the other
 * player), the message shown when the game ends, and a whole sequence of
 * clicks played one after the other.
 */
module Rules {
  import opened Board

  /** The board and the turn flag; `circleTurn` false means X is to move. */
  datatype GameState = GameState(board: seq<Cell>, circleTurn: bool)

  /**
   * Which branch a click took. `Ignored` is a click on a cell that already
   * holds a mark: its one-shot listener has fired, so nothing happens.
   */
  datatype Outcome = Ignored | Continue | Win | Draw

  predicate WellFormed(s: GameState) {
    |s.board| == Size
  }

  /** The mark of the player to move (`currentClass`). */
  function CurrentMark(circleTurn: bool): Mark {
    if circleTurn then O else X
  }

  /** The state `startGame` leaves: nine empty cells and X to move. */
  function Start(): (s: GameState)
    ensures WellFormed(s)
  {
    GameState(seq(Size, _ => Empty), false)
  }

  /** The effect of `handleClick` on the cell with index `i`. */
  function Click(s: GameState, i: Index): (r: (GameState, Outcome))
    requires WellFormed(s)
    ensures WellFormed(r.0)
    ensures forall j :: 0 <= j < Size && j != i ==> r.0.board[j] == s.board[j]
    ensures r.1 == Ignored <==> s.board[i] != Empty
    ensures r.0.board[i] == if s.board[i] == Empty then Filled(CurrentMark(s.circleTurn)) else s.board[i]
    ensures r.0.circleTurn == (if r.1 == Continue then !s.circleTurn else s.circleTurn)
  {
    if s.board[i] != Empty then (s, Ignored)
    else
      var mark := CurrentMark(s.circleTurn);
      var b := s.board[i := Filled(mark)];
      if CheckWin(b, mark) then (GameState(b, s.circleTurn), Win)
      else if IsDraw(b) then (GameState(b, s.circleTurn), Draw)
      else (GameState(b, !s.circleTurn), Continue)
  }

  /** The text `endGame(draw)` shows; the winner is read from the turn flag. */
  function EndGameMessage(draw: bool, circleTurn: bool): string {
    if draw then "Draw!" else (if circleTurn then "O's" else "X's") + " Wins!"
  }

  /** The announcement naming `m` as the winner. */
  function WinText(m: Mark): string {
    match m
    case X => "X's Wins!"
    case O => "O's Wins!"
  }

  /**
   * What each outcome of a click means, in terms of the board after it: a
   * filled cell is left alone; otherwise the current mark lands on the cell,
   * the click wins exactly when that mark now owns a row, column or diagonal,
   * draws exactly when it does not and no cell is empty, and the turn passes
   * to the other player only when the game goes on.
   */
  lemma ClickOutcomes(s: GameState, i: Index)
    requires WellFormed(s)
    ensures var (t, o) := Click(s, i);
            var m := CurrentMark(s.circleTurn);
            && (o == Ignored <==> s.board[i] != Empty)
            && (o == Ignored ==> t == s)
            && (o != Ignored ==> t.board[i] == Filled(m))
            && (o == Win <==> s.board[i] == Empty && HasLine(t.board, m))
            && (o == Draw <==> s.board[i] == Empty && !HasLine(t.board, m) &&
                               forall k :: 0 <= k < Size ==> t.board[k] != Empty)
            && (o == Continue <==> s.board[i] == Empty && !HasLine(t.board, m) &&
                                   exists k :: 0 <= k < Size && t.board[k] == Empty)
            && t.circleTurn == (if o == Continue then !s.circleTurn else s.circleTurn)
  {
    if s.board[i] == Empty {
      var m := CurrentMark(s.circleTurn);
      var b := s.board[i := Filled(m)];
      CheckWinIffHasLine(b, m);
      IsDrawIff(b);
    }
  }

  /** A placement that completes a line on a board it also fills is a win, not a draw. */
  lemma WinBeatsDraw(s: GameState, i: Index)
    requires WellFormed(s) && s.board[i] == Empty
    requires var b := s.board[i := Filled(CurrentMark(s.circleTurn))];
             HasLine(b, CurrentMark(s.circleTurn)) && forall k :: 0 <= k < Size ==> b[k] != Empty
    ensures Click(s, i).1 == Win
  {
    ClickOutcomes(s, i);
  }

  /**
   * On a win the turn flag is left as it was, so the mark it names is the
   * mark just placed, that mark owns a line, and the message names it.
   */
  lemma WinnerIsMarkJustPlaced(s: GameState, i: Index)
    requires WellFormed(s) && Click(s, i).1 == Win
    ensures var t := Click(s, i).0;
            && CurrentMark(t.circleTurn) == CurrentMark(s.circleTurn)
            && t.board[i] == Filled(CurrentMark(t.circleTurn))
            && HasLine(t.board, CurrentMark(t.circleTurn))
            && EndGameMessage(false, t.circleTurn) == WinText(CurrentMark(s.circleTurn))
  {
    ClickOutcomes(s, i);
  }

  /** On a draw the board is full, the mark just placed owns no line, and the message says so. */
  lemma DrawMessage(s: GameState, i: Index)
    requires WellFormed(s) && Click(s, i).1 == Draw
    ensures var t := Click(s, i).0;
            && (forall k :: 0 <= k < Size ==> t.board[k] != Empty)
            && !HasLine(t.board, CurrentMark(t.circleTurn))
            && EndGameMessage(true, t.circleTurn) == "Draw!"
  {
    ClickOutcomes(s, i);
  }

  /** The win message is built from the turn flag and names the mark of the player to move. */
  lemma WinMessageNamesMark(circleTurn: bool)
    ensures EndGameMessage(false, circleTurn) == WinText(CurrentMark(circleTurn))
  {
  }

  /** The three end-of-game messages are pairwise different. */
  lemma MessagesDistinct(c: bool, c': bool)
    ensures EndGameMessage(true, c) != EndGameMessage(false, c')
    ensures EndGameMessage(false, c) == EndGameMessage(false, c') <==> c == c'
  {
    assert EndGameMessage(true, c)[0] == 'D';
    assert EndGameMessage(false, c')[0] != 'D';
    if c != c' {
      assert EndGameMessage(false, c)[0] != EndGameMessage(false, c')[0];
    }
  }

  /** Two lines with the same cells on two boards are owned on both or on neither. */
  lemma LineOwnedFrame(b: seq<Cell>, b': seq<Cell>, line: seq<Index>, m: Mark)
    requires |b| == Size && |b'| == Size
    requires forall k :: 0 <= k < |line| ==> b[line[k]] == b'[line[k]]
    ensures LineOwned(b, line, m) <==> LineOwned(b', line, m)
  {
    LineOwnedIff(b, line, m);
    LineOwnedIff(b', line, m);
  }

  /** A win on a board that had no line for that mark is completed by a line through the clicked cell. */
  lemma WinningLineThroughMove(s: GameState, i: Index)
    requires WellFormed(s) && Click(s, i).1 == Win
    requires !CheckWin(s.board, CurrentMark(s.circleTurn))
    ensures exists t :: 0 <= t < 8 && i in WinningCombinations[t] &&
                        LineOwned(Click(s, i).0.board, WinningCombinations[t], CurrentMark(s.circleTurn))
  {
    var m := CurrentMark(s.circleTurn);
    var b := Click(s, i).0.board;
    AnyLineOwnedIff(b, WinningCombinations, m);
    AnyLineOwnedIff(s.board, WinningCombinations, m);
    var t :| 0 <= t < 8 && LineOwned(b, WinningCombinations[t], m);
    if i !in WinningCombinations[t] {
      LineOwnedFrame(s.board, b, WinningCombinations[t], m);
      assert false;
    }
  }

  /**
   * The engine itself does not stop play once a line is complete (the page
   * relies on its overlay for that): a click on any cell still empty places
   * the same mark again (the turn was not passed on), the line
   * is still owned, so the click is reported as a win once more.
   */
  lemma ClickAfterWin(s: GameState, i: Index)
    requires WellFormed(s) && s.board[i] == Empty
    requires CheckWin(s.board, CurrentMark(s.circleTurn))
    ensures Click(s, i).1 == Win && Click(s, i).0.circleTurn == s.circleTurn
  {
    MarkKeepsWin(s.board, i, CurrentMark(s.circleTurn), CurrentMark(s.circleTurn));
  }

  /** The state after clicking the cells of `moves` in order, and the outcome of each click. */
  function Play(s: GameState, moves: seq<Index>): (r: (GameState, seq<Outcome>))
    requires WellFormed(s)
    ensures WellFormed(r.0) && |r.1| == |moves|
    decreases |moves|
  {
    if moves == [] then (s, [])
    else
      var (t, os) := Play(s, moves[..|moves| - 1]);
      var (u, o) := Click(t, moves[|moves| - 1]);
      (u, os + [o])
  }

  /** One more click extends the play by that click's state and outcome. */
  lemma PlaySnoc(s: GameState, moves: seq<Index>, i: Index)
    requires WellFormed(s)
    ensures Play(s, moves + [i]) ==
      (Click(Play(s, moves).0, i).0, Play(s, moves).1 + [Click(Play(s, moves).0, i).1])
  {
    assert (moves + [i])[..|moves|] == moves;
  }

  /** The number of clicks, among `os`, after which the game went on. */
  function Continues(os: seq<Outcome>): nat
    decreases |os|
  {
    if os == [] then 0
    else Continues(os[..|os| - 1]) + (if os[|os| - 1] == Continue then 1 else 0)
  }

  lemma {:induction false} ContinuesAppend(os: seq<Outcome>, os': seq<Outcome>)
    ensures Continues(os + os') == Continues(os) + Continues(os')
    decreases |os'|
  {
    if os' != [] {
      var n := |os'| - 1;
      assert (os + os')[..|os + os'| - 1] == os + os'[..n];
      ContinuesAppend(os, os'[..n]);
    } else {
      assert os + os' == os;
    }
  }

  /** Playing `a` and then `b` is playing `a + b`. */
  lemma {:induction false} PlayAppend(s: GameState, a: seq<Index>, b: seq<Index>)
    requires WellFormed(s)
    ensures Play(s, a + b) == (Play(Play(s, a).0, b).0, Play(s, a).1 + Play(Play(s, a).0, b).1)
    decreases |b|
  {
    var p := Play(s, a);
    if b == [] {
      assert a + b == a;
      assert p.1 + [] == p.1;
    } else {
      var n := |b| - 1;
      assert (a + b)[..|a + b| - 1] == a + b[..n];
      assert (a + b)[|a + b| - 1] == b[n];
      PlayAppend(s, a, b[..n]);
      var q := Play(p.0, b[..n]);
      var c := Click(q.0, b[n]);
      assert Play(p.0, b) == (c.0, q.1 + [c.1]);
      assert Play(s, a + b) == (c.0, (p.1 + q.1) + [c.1]);
      assert (p.1 + q.1) + [c.1] == p.1 + (q.1 + [c.1]);
    }
  }

  /**
   * The turn flag after any sequence of clicks: it has flipped once per click
   * after which the game went on, and never on an ignored, winning or
   * drawing click.
   */
  lemma {:induction false} PlayTurnParity(s: GameState, moves: seq<Index>)
    requires WellFormed(s)
    ensures Play(s, moves).0.circleTurn == (s.circleTurn != Odd(Continues(Play(s, moves).1)))
    decreases |moves|
  {
    if moves != [] {
      var front := moves[..|moves| - 1];
      PlayTurnParity(s, front);
      var p := Play(s, front);
      var c := Click(p.0, moves[|moves| - 1]);
      assert Play(s, moves) == (c.0, p.1 + [c.1]);
      ContinuesSnoc(p.1, c.1);
    }
  }

  /** `n` is odd. */
  predicate Odd(n: nat) {
    n % 2 == 1
  }

  lemma ContinuesSnoc(os: seq<Outcome>, o: Outcome)
    ensures Continues(os + [o]) == Continues(os) + (if o == Continue then 1 else 0)
    ensures Odd(Continues(os + [o])) == (Odd(Continues(os)) != (o == Continue))
  {
    assert (os + [o])[..|os|] == os;
  }

  /** A filled cell keeps its mark through any sequence of clicks. */
  lemma {:induction false} PlayKeepsFilled(s: GameState, moves: seq<Index>, k: Index)
    requires WellFormed(s) && s.board[k] != Empty
    ensures Play(s, moves).0.board[k] == s.board[k]
    decreases |moves|
  {
    if moves != [] {
      PlayKeepsFilled(s, moves[..|moves| - 1], k);
    }
  }

  /**
   * From a fresh game, the click with index `j`, unless ignored, places X
   * when an even number of the clicks before it let the game go on, and O
   * otherwise; that mark is still in its cell at the end.
   */
  lemma KthMoveMark(moves: seq<Index>, j: nat)
    requires j < |moves|
    ensures var (final, os) := Play(Start(), moves);
            os[j] != Ignored ==>
              final.board[moves[j]] == Filled(if Odd(Continues(os[..j])) then O else X)
  {
    PlaySplit(Start(), moves, j);
    var (before, os0) := Play(Start(), moves[..j]);
    PlayTurnParity(Start(), moves[..j]);
    var (after, o) := Click(before, moves[j]);
    if o != Ignored {
      PlayKeepsFilled(after, moves[j + 1..], moves[j]);
    }
  }

  /**
   * Playing `moves` is playing the clicks before the one with index `j`,
   * then that click, then the clicks after it.
   */
  lemma PlaySplit(s: GameState, moves: seq<Index>, j: nat)
    requires WellFormed(s) && j < |moves|
    ensures var (before, os0) := Play(s, moves[..j]);
            var (after, o) := Click(before, moves[j]);
            && Play(s, moves).1[..j] == os0
            && Play(s, moves).1[j] == o
            && Play(s, moves).0 == Play(after, moves[j + 1..]).0
  {
    var a, b := moves[..j + 1], moves[j + 1..];
    assert moves == a + b;
    assert a[..|a| - 1] == moves[..j];
    PlayAppend(s, a, b);
    var (before, os0) := Play(s, moves[..j]);
    var (after, o) := Click(before, moves[j]);
    assert Play(s, a) == (after, os0 + [o]);
    var os := Play(s, moves).1;
    assert os == os0 + [o] + Play(after, b).1;
    assert os[..j] == os0 && os[j] == o;
  }

  /**
   * While no click has ended the game, X has placed one mark more than O
   * when O is to move, and as many as O when X is to move.
   */
  ghost predicate Balanced(s: GameState) {
    WellFormed(s) && Count(s.board, X) == Count(s.board, O) + (if s.circleTurn then 1 else 0)
  }

  lemma StartIsBalanced()
    ensures Balanced(Start())
  {
    CountOfEmpty(Start().board, X);
    CountOfEmpty(Start().board, O);
  }

  lemma ClickKeepsBalance(s: GameState, i: Index)
    requires Balanced(s)
    requires Click(s, i).1 == Ignored || Click(s, i).1 == Continue
    ensures Balanced(Click(s, i).0)
  {
    if s.board[i] == Empty {
      var m := CurrentMark(s.circleTurn);
      CountAfterMark(s.board, i, m, if m == X then O else X);
      ClickOutcomes(s, i);
    }
  }

  lemma {:induction false} PlayKeepsBalance(s: GameState, moves: seq<Index>)
    requires Balanced(s)
    requires forall k :: 0 <= k < |moves| ==> Play(s, moves).1[k] == Ignored || Play(s, moves).1[k] == Continue
    ensures Balanced(Play(s, moves).0)
    decreases |moves|
  {
    if moves != [] {
      var front := moves[..|moves| - 1];
      var (t, os) := Play(s, front);
      assert forall k :: 0 <= k < |front| ==> Play(s, moves).1[k] == os[k];
      assert Play(s, moves).1[|moves| - 1] == Click(t, moves[|moves| - 1]).1;
      PlayKeepsBalance(s, front);
      ClickKeepsBalance(t, moves[|moves| - 1]);
    }
  }

  /**
   * In a game where every earlier click let play go on, the click that fills
   * the board without a line is always X's: before it X and O hold four
   * cells each, so it is X's turn.
   */
  lemma DrawIsXsMove(s: GameState, i: Index)
    requires Balanced(s) && Click(s, i).1 == Draw
    ensures !s.circleTurn && Click(s, i).0.board[i] == Filled(X)
  {
    var m := CurrentMark(s.circleTurn);
    var b := s.board[i := Filled(m)];
    assert s.board[i] == Empty && IsDraw(b);
    CountAfterMark(s.board, i, m, if m == X then O else X);
    IsDrawIffCount(b);
  }

  /**
   * From a fresh game, after clicks that all let play go on (or were
   * ignored), a click that ends the game in a draw is made by X.
   */
  lemma DrawEndsOnXsMove(moves: seq<Index>, i: Index)
    requires forall k :: 0 <= k < |moves| ==> Play(Start(), moves).1[k] == Ignored || Play(Start(), moves).1[k] == Continue
    requires Click(Play(Start(), moves).0, i).1 == Draw
    ensures !Play(Start(), moves).0.circleTurn
    ensures Click(Play(Start(), moves).0, i).0.board[i] == Filled(X)
  {
    var before := Play(Start(), moves).0;
    StartIsBalanced();
    PlayKeepsBalance(Start(), moves);
    DrawIsXsMove(before, i);
  }
}
