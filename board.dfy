/**
 * The Tic Tac Toe board: nine cells indexed 0..8 in row-major order,
 *
 *     0 1 2
 *     3 4 5
 *     6 7 8
 *
 * the eight fixed winning lines, and the two board tests the game runs after
 * every placement: does a mark own a whole line, and is every cell filled.
 */
module Board {

  /** The two marks; `O` is the mark the page draws as a circle. */
  datatype Mark = X | O

  datatype Cell = Empty | Filled(mark: Mark)

  /** The number of cells on the board. */
  const Size: nat := 9

  /** The index of a cell. */
  type Index = i: nat | i < 9

  /** The three rows, the three columns and the two diagonals, as cell indices. */
  const WinningCombinations: seq<seq<Index>> := [
    [0, 1, 2], [3, 4, 5], [6, 7, 8],
    [0, 3, 6], [1, 4, 7], [2, 5, 8],
    [0, 4, 8], [2, 4, 6]
  ]

  /** Eight combinations of three cells each. */
  lemma CombinationsShape()
    ensures |WinningCombinations| == 8
    ensures forall t :: 0 <= t < 8 ==> |WinningCombinations[t]| == 3
  {
  }

  /** `combination.every(...)`: each cell of `line` holds `m`, tested left to right. */
  function LineOwned(b: seq<Cell>, line: seq<Index>, m: Mark): bool
    requires |b| == Size
    decreases |line|
  {
    if line == [] then true
    else b[line[0]] == Filled(m) && LineOwned(b, line[1..], m)
  }

  /** `WINNING_COMBINATIONS.some(...)`: some line of `lines` is owned by `m`. */
  function AnyLineOwned(b: seq<Cell>, lines: seq<seq<Index>>, m: Mark): bool
    requires |b| == Size
    decreases |lines|
  {
    if lines == [] then false
    else LineOwned(b, lines[0], m) || AnyLineOwned(b, lines[1..], m)
  }

  /** `checkWin(currentClass)`: does `m` own one of the eight winning lines? */
  function CheckWin(b: seq<Cell>, m: Mark): bool
    requires |b| == Size
  {
    AnyLineOwned(b, WinningCombinations, m)
  }

  /** `isDraw()`: every cell carries a mark, tested left to right. */
  function IsDraw(b: seq<Cell>): bool
    decreases |b|
  {
    if b == [] then true
    else b[0] != Empty && IsDraw(b[1..])
  }

  /** The number of cells of `b` holding `m`. */
  function Count(b: seq<Cell>, m: Mark): nat
    decreases |b|
  {
    if b == [] then 0
    else (if b[0] == Filled(m) then 1 else 0) + Count(b[1..], m)
  }

  /** The cell in row `row` and column `col` of the grid. */
  function At(b: seq<Cell>, row: nat, col: nat): Cell
    requires |b| == Size && row < 3 && col < 3
  {
    b[3 * row + col]
  }

  /**
   * The geometric reading of a win, independent of the table: `m` fills a
   * whole row, a whole column, or one of the two diagonals of the grid.
   */
  ghost predicate HasLine(b: seq<Cell>, m: Mark)
    requires |b| == Size
  {
    || (exists r: nat :: r < 3 && At(b, r, 0) == Filled(m) && At(b, r, 1) == Filled(m) && At(b, r, 2) == Filled(m))
    || (exists c: nat :: c < 3 && At(b, 0, c) == Filled(m) && At(b, 1, c) == Filled(m) && At(b, 2, c) == Filled(m))
    || (At(b, 0, 0) == Filled(m) && At(b, 1, 1) == Filled(m) && At(b, 2, 2) == Filled(m))
    || (At(b, 0, 2) == Filled(m) && At(b, 1, 1) == Filled(m) && At(b, 2, 0) == Filled(m))
  }

  /** `every` over a line means: all of its cells hold `m`. */
  lemma {:induction false} LineOwnedIff(b: seq<Cell>, line: seq<Index>, m: Mark)
    requires |b| == Size
    ensures LineOwned(b, line, m) <==> forall k :: 0 <= k < |line| ==> b[line[k]] == Filled(m)
    decreases |line|
  {
    if line != [] {
      LineOwnedIff(b, line[1..], m);
      assert forall k :: 1 <= k < |line| ==> line[k] == line[1..][k - 1];
    }
  }

  /** `some` over the lines means: one of them is owned by `m`. */
  lemma {:induction false} AnyLineOwnedIff(b: seq<Cell>, lines: seq<seq<Index>>, m: Mark)
    requires |b| == Size
    ensures AnyLineOwned(b, lines, m) <==> exists t :: 0 <= t < |lines| && LineOwned(b, lines[t], m)
    decreases |lines|
  {
    if lines != [] {
      AnyLineOwnedIff(b, lines[1..], m);
      assert forall t :: 1 <= t < |lines| ==> lines[t] == lines[1..][t - 1];
    }
  }

  /** `checkWin(m)` holds exactly when all three cells of some winning combination hold `m`. */
  lemma CheckWinIffCombination(b: seq<Cell>, m: Mark)
    requires |b| == Size
    ensures CheckWin(b, m) <==>
      exists t :: 0 <= t < 8 && forall k :: 0 <= k < 3 ==> b[WinningCombinations[t][k]] == Filled(m)
  {
    CombinationsShape();
    AnyLineOwnedIff(b, WinningCombinations, m);
    forall t | 0 <= t < 8
      ensures LineOwned(b, WinningCombinations[t], m) <==>
              forall k :: 0 <= k < 3 ==> b[WinningCombinations[t][k]] == Filled(m)
    {
      LineOwnedIff(b, WinningCombinations[t], m);
    }
  }

  /** A line of three cells is owned when each of its three cells holds `m`. */
  lemma LineOwnedTriple(b: seq<Cell>, line: seq<Index>, m: Mark)
    requires |b| == Size && |line| == 3
    ensures LineOwned(b, line, m) <==>
      b[line[0]] == Filled(m) && b[line[1]] == Filled(m) && b[line[2]] == Filled(m)
  {
    LineOwnedIff(b, line, m);
  }

  /** Each winning combination owned by `m` is a row, a column or a diagonal of the grid. */
  lemma CheckWinGivesLine(b: seq<Cell>, m: Mark)
    requires |b| == Size && CheckWin(b, m)
    ensures HasLine(b, m)
  {
    var W := WinningCombinations;
    CombinationsShape();
    AnyLineOwnedIff(b, W, m);
    var t :| 0 <= t < 8 && LineOwned(b, W[t], m);
    LineOwnedTriple(b, W[t], m);
    if t < 3 {
      assert At(b, t, 0) == Filled(m) && At(b, t, 1) == Filled(m) && At(b, t, 2) == Filled(m);
    } else if t < 6 {
      assert At(b, 0, t - 3) == Filled(m) && At(b, 1, t - 3) == Filled(m) && At(b, 2, t - 3) == Filled(m);
    }
  }

  /** The three cells of the combination with index `t` all holding `m` is a win for `m`. */
  lemma CombinationGivesCheckWin(b: seq<Cell>, m: Mark, t: nat)
    requires |b| == Size && t < 8
    requires forall k :: 0 <= k < 3 ==> b[WinningCombinations[t][k]] == Filled(m)
    ensures CheckWin(b, m)
  {
    CombinationsShape();
    AnyLineOwnedIff(b, WinningCombinations, m);
    LineOwnedTriple(b, WinningCombinations[t], m);
  }

  /** Each row, column and diagonal of the grid owned by `m` is one of the winning combinations. */
  lemma LineGivesCheckWin(b: seq<Cell>, m: Mark)
    requires |b| == Size && HasLine(b, m)
    ensures CheckWin(b, m)
  {
    var f := Filled(m);
    if exists r: nat :: r < 3 && At(b, r, 0) == f && At(b, r, 1) == f && At(b, r, 2) == f {
      var r: nat :| r < 3 && At(b, r, 0) == f && At(b, r, 1) == f && At(b, r, 2) == f;
      assert WinningCombinations[r] == [3 * r, 3 * r + 1, 3 * r + 2];
      CombinationGivesCheckWin(b, m, r);
    } else if exists c: nat :: c < 3 && At(b, 0, c) == f && At(b, 1, c) == f && At(b, 2, c) == f {
      var c: nat :| c < 3 && At(b, 0, c) == f && At(b, 1, c) == f && At(b, 2, c) == f;
      assert WinningCombinations[3 + c] == [c, 3 + c, 6 + c];
      CombinationGivesCheckWin(b, m, 3 + c);
    } else if At(b, 0, 0) == f && At(b, 1, 1) == f && At(b, 2, 2) == f {
      CombinationGivesCheckWin(b, m, 6);
    } else {
      CombinationGivesCheckWin(b, m, 7);
    }
  }

  /** The table of winning combinations is exactly the rows, columns and diagonals of the grid. */
  lemma CheckWinIffHasLine(b: seq<Cell>, m: Mark)
    requires |b| == Size
    ensures CheckWin(b, m) <==> HasLine(b, m)
  {
    if CheckWin(b, m) {
      CheckWinGivesLine(b, m);
    }
    if HasLine(b, m) {
      LineGivesCheckWin(b, m);
    }
  }

  /** `checkWin(m)` with the eight lines written out cell by cell. */
  lemma CheckWinExplicit(b: seq<Cell>, m: Mark)
    requires |b| == Size
    ensures CheckWin(b, m) <==>
      var f := Filled(m);
      || (b[0] == f && b[1] == f && b[2] == f)
      || (b[3] == f && b[4] == f && b[5] == f)
      || (b[6] == f && b[7] == f && b[8] == f)
      || (b[0] == f && b[3] == f && b[6] == f)
      || (b[1] == f && b[4] == f && b[7] == f)
      || (b[2] == f && b[5] == f && b[8] == f)
      || (b[0] == f && b[4] == f && b[8] == f)
      || (b[2] == f && b[4] == f && b[6] == f)
  {
    CheckWinIffHasLine(b, m);
    var f := Filled(m);
    if exists r: nat :: r < 3 && At(b, r, 0) == f && At(b, r, 1) == f && At(b, r, 2) == f {
      var r: nat :| r < 3 && At(b, r, 0) == f && At(b, r, 1) == f && At(b, r, 2) == f;
      assert r == 0 || r == 1 || r == 2;
    }
    if exists c: nat :: c < 3 && At(b, 0, c) == f && At(b, 1, c) == f && At(b, 2, c) == f {
      var c: nat :| c < 3 && At(b, 0, c) == f && At(b, 1, c) == f && At(b, 2, c) == f;
      assert c == 0 || c == 1 || c == 2;
    }
    if b[0] == f && b[1] == f && b[2] == f { assert At(b, 0, 0) == f && At(b, 0, 1) == f && At(b, 0, 2) == f; }
    if b[3] == f && b[4] == f && b[5] == f { assert At(b, 1, 0) == f && At(b, 1, 1) == f && At(b, 1, 2) == f; }
    if b[6] == f && b[7] == f && b[8] == f { assert At(b, 2, 0) == f && At(b, 2, 1) == f && At(b, 2, 2) == f; }
    if b[0] == f && b[3] == f && b[6] == f { assert At(b, 0, 0) == f && At(b, 1, 0) == f && At(b, 2, 0) == f; }
    if b[1] == f && b[4] == f && b[7] == f { assert At(b, 0, 1) == f && At(b, 1, 1) == f && At(b, 2, 1) == f; }
    if b[2] == f && b[5] == f && b[8] == f { assert At(b, 0, 2) == f && At(b, 1, 2) == f && At(b, 2, 2) == f; }
  }

  /** Marking an empty cell, with either mark, never takes a line away from `m`. */
  lemma MarkKeepsWin(b: seq<Cell>, i: Index, m: Mark, m': Mark)
    requires |b| == Size && b[i] == Empty && CheckWin(b, m)
    ensures CheckWin(b[i := Filled(m')], m)
  {
    var W, b' := WinningCombinations, b[i := Filled(m')];
    CombinationsShape();
    AnyLineOwnedIff(b, W, m);
    AnyLineOwnedIff(b', W, m);
    var t :| 0 <= t < |W| && LineOwned(b, W[t], m);
    LineOwnedIff(b, W[t], m);
    LineOwnedIff(b', W[t], m);
  }

  /** `isDraw()` holds exactly when no cell is empty. */
  lemma {:induction false} IsDrawIff(b: seq<Cell>)
    ensures IsDraw(b) <==> forall k :: 0 <= k < |b| ==> b[k] != Empty
    decreases |b|
  {
    if b != [] {
      IsDrawIff(b[1..]);
      assert forall k :: 1 <= k < |b| ==> b[k] == b[1..][k - 1];
    }
  }

  /** A board is full exactly when its X and O counts add up to its size. */
  lemma {:induction false} IsDrawIffCount(b: seq<Cell>)
    ensures IsDraw(b) <==> Count(b, X) + Count(b, O) == |b|
    ensures Count(b, X) + Count(b, O) <= |b|
    decreases |b|
  {
    if b != [] {
      IsDrawIffCount(b[1..]);
      match b[0]
      case Empty =>
        assert Count(b, X) + Count(b, O) == Count(b[1..], X) + Count(b[1..], O);
      case Filled(mk) =>
        var other := if mk == X then O else X;
        assert Count(b, mk) == 1 + Count(b[1..], mk);
        assert Count(b, other) == Count(b[1..], other);
        assert Count(b, X) + Count(b, O) == Count(b[1..], X) + Count(b[1..], O) + 1;
    }
  }

  /** A board with no marks counts no marks. */
  lemma {:induction false} CountOfEmpty(b: seq<Cell>, m: Mark)
    requires forall k :: 0 <= k < |b| ==> b[k] == Empty
    ensures Count(b, m) == 0
    decreases |b|
  {
    if b != [] {
      assert forall k :: 0 <= k < |b| - 1 ==> b[1..][k] == b[k + 1];
      CountOfEmpty(b[1..], m);
    }
  }

  /** Marking an empty cell with `m` adds one `m` and leaves the other mark's count alone. */
  lemma {:induction false} CountAfterMark(b: seq<Cell>, i: nat, m: Mark, other: Mark)
    requires i < |b| && b[i] == Empty
    ensures Count(b[i := Filled(m)], m) == Count(b, m) + 1
    ensures other != m ==> Count(b[i := Filled(m)], other) == Count(b, other)
    decreases |b|
  {
    var b' := b[i := Filled(m)];
    if i == 0 {
      assert b'[1..] == b[1..];
    } else {
      assert b'[1..] == b[1..][i - 1 := Filled(m)];
      CountAfterMark(b[1..], i - 1, m, other);
    }
  }
}
