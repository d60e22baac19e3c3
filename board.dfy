/**
 * `CaroBoard`: the N×N grid, stored as a 2-D array indexed `board[y, x]`,
 * with the player to move, the move history, the winner and the game-over
 * flag as fields that `MakeMove` and `Reset` update in place. Every method is
 * proved to do what the value-level rules in module Rules say.
 */
module Board {
  import opened Common
  import opened Rules

  class CaroBoard {
    const size: nat
    var board: array2<int>
    var currentPlayer: int
    var movesHistory: seq<Move>
    var winner: Option<int>
    var gameOver: bool

    /** Row y of an array, its first n cells. */
    static ghost function RowOf(a: array2<int>, y: nat, n: nat): (r: seq<int>)
      reads a
      requires y < a.Length0 && n <= a.Length1
      ensures |r| == n
      ensures forall x :: 0 <= x < n ==> r[x] == a[y, x]
    {
      if n == 0 then [] else RowOf(a, y, n - 1) + [a[y, n - 1]]
    }

    /** The first m rows of an array. */
    static ghost function RowsOf(a: array2<int>, m: nat): (g: Grid)
      reads a
      requires m <= a.Length0
      ensures |g| == m
      ensures forall y :: 0 <= y < m ==> |g[y]| == a.Length1
      ensures forall y, x :: 0 <= y < m && 0 <= x < a.Length1 ==> g[y][x] == a[y, x]
    {
      if m == 0 then [] else RowsOf(a, m - 1) + [RowOf(a, m - 1, a.Length1)]
    }

    /** The grid held by an array: `GridOf(a)[y][x] == a[y, x]`. */
    static ghost function GridOf(a: array2<int>): (g: Grid)
      reads a
      ensures |g| == a.Length0
      ensures forall y :: 0 <= y < |g| ==> |g[y]| == a.Length1
      ensures forall y, x :: 0 <= y < a.Length0 && 0 <= x < a.Length1 ==> g[y][x] == a[y, x]
    {
      RowsOf(a, a.Length0)
    }

    /** The board as a `Rules.BoardState`. */
    ghost function State(): BoardState
      reads this, board
    {
      BoardState(size, GridOf(board), currentPlayer, movesHistory, winner, gameOver)
    }

    /** The array is size × size. */
    ghost predicate Shaped()
      reads this
    {
      board.Length0 == size && board.Length1 == size
    }

    ghost predicate Valid()
      reads this, board
    {
      Shaped() && WellFormed(State())
    }

    /** A grid whose cells are the array's cells is the array's grid. */
    lemma CellsAre(g: Grid)
      requires Shaped() && IsSquare(g, size)
      requires forall y, x :: 0 <= y < size && 0 <= x < size ==> board[y, x] == g[y][x]
      ensures GridOf(board) == g
    {
      var c := GridOf(board);
      forall y | 0 <= y < size
        ensures c[y] == g[y]
      {
        assert |c[y]| == |g[y]|;
      }
    }

    /** `CaroBoard(size)`: an empty size × size grid, player 1 to move. */
    constructor (size: nat)
      ensures Valid() && fresh(board)
      ensures State() == NewBoard(size)
    {
      this.size := size;
      board := new int[size, size]((_, _) => 0);
      currentPlayer := 1;
      movesHistory := [];
      winner := None;
      gameOver := false;
      new;
      CellsAre(EmptyGrid(size));
      NewBoardWellFormed(size);
      assert State() == NewBoard(size);
    }

    /** `is_valid_move(x, y, player)`. */
    method IsValidMove(x: int, y: int, player: int) returns (valid: bool)
      requires Shaped()
      ensures valid == Rules.IsValidMove(State(), x, y, player)
    {
      if gameOver {
        return false;
      }
      if !(0 <= x < size && 0 <= y < size) {
        return false;
      }
      if board[y, x] != 0 {
        return false;
      }
      if player != currentPlayer {
        return false;
      }
      return true;
    }

    /**
     * One of `check_win`'s inner loops: the number of contiguous stones of
     * `player` at steps 1, 2, 3, 4 from (x, y) along d (backwards when not
     * `forward`), stopping at the first cell off the board or not `player`'s.
     */
    method CountSteps(x: int, y: int, d: Direction, forward: bool, player: int) returns (count: nat)
      requires Shaped()
      ensures count == Reach(GridOf(board), size, x, y, d, forward, player, 1)
    {
      ghost var g := GridOf(board);
      assert IsSquare(g, size);
      ghost var total := Reach(g, size, x, y, d, forward, player, 1);
      count := 0;
      var i := 1;
      while i < 5
        invariant 1 <= i <= 5
        invariant count + Reach(g, size, x, y, d, forward, player, i) == total
      {
        // x + dx * i forwards, x - dx * i backwards
        var nx, ny := x + StepX(d, Signed(forward, i)), y + StepY(d, Signed(forward, i));
        ReachStep(g, size, x, y, d, forward, player, i);
        if 0 <= nx < size && 0 <= ny < size && board[ny, nx] == player {
          count := count + 1;
        } else {
          break;
        }
        i := i + 1;
      }
    }

    /**
     * `check_win(x, y, player)`: along each of the four axes, count the stone
     * at (x, y) and up to four contiguous stones of `player` on either side;
     * a count of 5 or more wins.
     */
    method CheckWin(x: int, y: int, player: int) returns (won: bool)
      requires Shaped()
      ensures won == Rules.CheckWin(GridOf(board), size, x, y, player)
    {
      ghost var g := GridOf(board);
      assert IsSquare(g, size);
      var k := 0;
      while k < |Directions|
        invariant 0 <= k <= |Directions|
        invariant forall j :: 0 <= j < k ==> Run(g, size, x, y, Directions[j], player) < 5
      {
        var d := Directions[k];
        var ahead := CountSteps(x, y, d, true, player);
        var behind := CountSteps(x, y, d, false, player);
        var count := 1 + ahead + behind;
        assert count == Run(g, size, x, y, d, player);
        if count >= 5 {
          assert d in Directions;
          return true;
        }
        k := k + 1;
      }
      assert forall d :: d in Directions ==> Run(g, size, x, y, d, player) < 5;
      return false;
    }

    /** `is_full()`: no cell of any row is 0. */
    method IsFull() returns (full: bool)
      requires Shaped()
      ensures full == Rules.IsFull(GridOf(board))
    {
      var y := 0;
      while y < size
        invariant 0 <= y <= size
        invariant forall j, i :: 0 <= j < y && 0 <= i < size ==> board[j, i] != 0
      {
        var x := 0;
        while x < size
          invariant 0 <= x <= size
          invariant forall i :: 0 <= i < x ==> board[y, i] != 0
        {
          if board[y, x] == 0 {
            return false;
          }
          x := x + 1;
        }
        y := y + 1;
      }
      return true;
    }

    /** `get_board()`: a copy of the grid, row by row. */
    method GetBoard() returns (rows: seq<seq<int>>)
      requires Shaped()
      ensures rows == GridOf(board)
    {
      rows := [];
      var y := 0;
      while y < size
        invariant 0 <= y <= size
        invariant |rows| == y
        invariant forall j :: 0 <= j < y ==> rows[j] == GridOf(board)[j]
      {
        var row := [];
        var x := 0;
        while x < size
          invariant 0 <= x <= size
          invariant row == GridOf(board)[y][..x]
        {
          row := row + [board[y, x]];
          x := x + 1;
        }
        rows := rows + [row];
        y := y + 1;
      }
    }

    /** `get_legal_moves()`: every empty cell as `(x, y)`, scanning y, then x. */
    method GetLegalMoves() returns (moves: seq<(int, int)>)
      requires Shaped()
      ensures moves == LegalMoves(GridOf(board), size)
    {
      ghost var g := GridOf(board);
      assert IsSquare(g, size);
      ghost var all := LegalMoves(g, size);
      moves := [];
      var y := 0;
      while y < size
        invariant 0 <= y <= size
        invariant moves + LegalFromRow(g, size, y) == all
      {
        ghost var rest := LegalFromRow(g, size, y + 1);
        assert LegalFromRow(g, size, y) == LegalInRow(g, size, y, 0) + rest;
        var x := 0;
        while x < size
          invariant 0 <= x <= size
          invariant moves + LegalInRow(g, size, y, x) + rest == all
        {
          ghost var tail := LegalInRow(g, size, y, x + 1);
          if board[y, x] == 0 {
            assert LegalInRow(g, size, y, x) == [(x, y)] + tail;
            moves := moves + [(x, y)];
          } else {
            assert LegalInRow(g, size, y, x) == tail;
          }
          x := x + 1;
        }
        y := y + 1;
      }
    }

    /** The first half of an accepted move: write the stone and record it. */
    method PutStone(x: int, y: int, p: int)
      requires Shaped() && 0 <= x < size && 0 <= y < size
      modifies this, board
      ensures Shaped() && board == old(board)
      ensures State() == Placed(old(State()), x, y, p)
    {
      ghost var g := Place(GridOf(board), x, y, p);
      board[y, x] := p;
      movesHistory := movesHistory + [Move(x, y, p)];
      CellsAre(g);
    }

    /** The second half of an accepted move: `check_win`, then `is_full`, then the turn passes. */
    method Conclude(x: int, y: int, p: int) returns (outcome: MoveOutcome)
      requires Shaped()
      modifies this
      ensures Shaped() && board == old(board)
      ensures (State(), outcome) == Settle(old(State()), x, y, p)
    {
      var won := CheckWin(x, y, p);
      if won {
        winner := Some(p);
        gameOver := true;
        return Win;
      }
      var full := IsFull();
      if full {
        gameOver := true;
        return Draw;
      }
      currentPlayer := 3 - p;
      return Continue;
    }

    /**
     * `make_move(x, y, player)`: validate, write the cell, record the move,
     * then report "win", "draw" or "continue" (switching the player only on
     * "continue"); an invalid move changes nothing.
     */
    method MakeMove(x: int, y: int, player: Option<int>) returns (success: bool, message: string)
      requires Shaped()
      modifies this, board
      ensures Shaped() && board == old(board)
      ensures old(Valid()) ==> Valid()
      ensures var (s, o) := Rules.MakeMove(old(State()), x, y, player);
        State() == s && success == o.Success() && message == o.Message()
    {
      ghost var s0 := State();
      if WellFormed(s0) {
        MakeMovePreservesWellFormed(s0, x, y, player);
      }
      var p := if player.Some? then player.value else currentPlayer;
      var valid := IsValidMove(x, y, p);
      if !valid {
        return false, "Invalid move";
      }
      PutStone(x, y, p);
      var outcome := Conclude(x, y, p);
      return true, outcome.Message();
    }

    /** `reset()`: a fresh empty grid of the same size, player 1 to move. */
    method Reset()
      modifies this
      ensures Valid() && fresh(board)
      ensures State() == NewBoard(size)
    {
      board := new int[size, size]((_, _) => 0);
      currentPlayer := 1;
      movesHistory := [];
      winner := None;
      gameOver := false;
      CellsAre(EmptyGrid(size));
      NewBoardWellFormed(size);
      assert State() == NewBoard(size);
    }
  }
}
