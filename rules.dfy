/**
 * The five-in-a-row rules of `CaroBoard` as values: a board state, what one
 * `make_move` does to it, and the facts the rules promise (a win is exactly
 * five in a row through the placed stone, a draw is a full board, turns
 * alternate, stones are never overwritten, the legal moves are the empty cells).
 * The class in module Board is proved to behave as these functions say.
 */
module Rules {
  import opened Common

  /** `board[y][x]`: 0 empty, 1 the first player (X), 2 the second (O). */
  type Grid = seq<seq<int>>

  /** The size `CaroBoard()` uses when none is given. */
  const DefaultSize: nat := 15

  /** One entry of `moves_history`: `(x, y, player)`. */
  datatype Move = Move(x: int, y: int, player: int)

  datatype BoardState = BoardState(
    size: nat,
    grid: Grid,
    currentPlayer: int,
    movesHistory: seq<Move>,
    winner: Option<int>,
    gameOver: bool)

  /** The second component of `make_move`'s result, with the success flag it comes with. */
  datatype MoveOutcome = Rejected | Win | Draw | Continue {
    function Success(): bool {
      !Rejected?
    }

    function Message(): string {
      match this
      case Rejected => "Invalid move"
      case Win => "win"
      case Draw => "draw"
      case Continue => "continue"
    }

    /** Outcomes that end the game. */
    predicate Ends() {
      Win? || Draw?
    }
  }

  predicate IsSquare(g: Grid, n: nat) {
    |g| == n && forall y :: 0 <= y < n ==> |g[y]| == n
  }

  predicate InBounds(n: nat, x: int, y: int) {
    0 <= x < n && 0 <= y < n
  }

  /** A stone of player p at (x, y), which lies on the board. */
  predicate Stone(g: Grid, n: nat, x: int, y: int, p: int)
    requires IsSquare(g, n)
  {
    InBounds(n, x, y) && g[y][x] == p
  }

  function EmptyGrid(n: nat): (g: Grid)
    ensures IsSquare(g, n)
    ensures forall y, x :: InBounds(n, x, y) ==> g[y][x] == 0
  {
    seq(n, _ => seq(n, _ => 0))
  }

  /** The state `CaroBoard(size)` starts in, and the one `reset` returns to. */
  function NewBoard(n: nat): (s: BoardState)
    ensures s.size == n && IsSquare(s.grid, n)
    ensures forall y, x :: InBounds(n, x, y) ==> s.grid[y][x] == 0
    ensures s.currentPlayer == 1 && s.movesHistory == [] && s.winner == None && !s.gameOver
  {
    BoardState(n, EmptyGrid(n), 1, [], None, false)
  }

  /** A new board is well formed and holds no stones. */
  lemma NewBoardWellFormed(n: nat)
    ensures WellFormed(NewBoard(n))
    ensures Filled(NewBoard(n).grid) == 0
  {
    FilledAllEmpty(EmptyGrid(n));
  }

  // ---------------------------------------------------------------------------
  // Win detection

  /** The four axes `check_win` scans: (1, 0), (0, 1), (1, 1) and (1, -1). */
  datatype Direction = Horizontal | Vertical | DiagonalDown | DiagonalUp

  const Directions: seq<Direction> := [Horizontal, Vertical, DiagonalDown, DiagonalUp]

  /** The x and y offsets of the cell k steps along an axis (k < 0 walks the other way). */
  function StepX(d: Direction, k: int): int {
    match d
    case Horizontal => k
    case Vertical => 0
    case DiagonalDown => k
    case DiagonalUp => k
  }

  function StepY(d: Direction, k: int): int {
    match d
    case Horizontal => 0
    case Vertical => k
    case DiagonalDown => k
    case DiagonalUp => -k
  }

  function Signed(forward: bool, j: int): int {
    if forward then j else -j
  }

  /** A stone of p at signed offset k from (x, y) along axis d. */
  predicate Along(g: Grid, n: nat, x: int, y: int, d: Direction, p: int, k: int)
    requires IsSquare(g, n)
  {
    Stone(g, n, x + StepX(d, k), y + StepY(d, k), p)
  }

  /**
   * How many contiguous stones of p `check_win` counts from step i on, in one
   * direction of one axis; it never looks further than step 4.
   */
  function Reach(g: Grid, n: nat, x: int, y: int, d: Direction, forward: bool, p: int, i: nat): (r: nat)
    requires IsSquare(g, n) && 1 <= i <= 5
    ensures r <= 5 - i
    decreases 5 - i
  {
    if i == 5 then 0
    else if Along(g, n, x, y, d, p, Signed(forward, i)) then 1 + Reach(g, n, x, y, d, forward, p, i + 1)
    else 0
  }

  /** One step of `Reach`: the stone at step i, then the rest. */
  lemma ReachStep(g: Grid, n: nat, x: int, y: int, d: Direction, forward: bool, p: int, i: nat)
    requires IsSquare(g, n) && 1 <= i < 5
    ensures var cx, cy := x + StepX(d, Signed(forward, i)), y + StepY(d, Signed(forward, i));
      Reach(g, n, x, y, d, forward, p, i) ==
        if InBounds(n, cx, cy) && g[cy][cx] == p then 1 + Reach(g, n, x, y, d, forward, p, i + 1) else 0
  {
  }

  /** The `count` of one axis: the placed stone plus the runs on both sides. */
  function Run(g: Grid, n: nat, x: int, y: int, d: Direction, p: int): nat
    requires IsSquare(g, n)
  {
    1 + Reach(g, n, x, y, d, true, p, 1) + Reach(g, n, x, y, d, false, p, 1)
  }

  /** `check_win(x, y, player)`: some axis has a count of at least 5. */
  predicate CheckWin(g: Grid, n: nat, x: int, y: int, p: int)
    requires IsSquare(g, n)
  {
    exists d :: d in Directions && Run(g, n, x, y, d, p) >= 5
  }

  lemma EveryDirectionScanned(d: Direction)
    ensures d in Directions
  {
    match d
    case Horizontal => assert Directions[0] == d;
    case Vertical => assert Directions[1] == d;
    case DiagonalDown => assert Directions[2] == d;
    case DiagonalUp => assert Directions[3] == d;
  }

  /** The five cells at offsets -s .. 4-s along d from (x, y) all hold stones of p. */
  ghost predicate FiveAt(g: Grid, n: nat, x: int, y: int, d: Direction, p: int, s: int)
    requires IsSquare(g, n)
  {
    forall k :: -s <= k < 5 - s ==> Along(g, n, x, y, d, p, k)
  }

  /** Five contiguous stones of p, along one of the four axes, one of them at (x, y). */
  ghost predicate FiveInARowThrough(g: Grid, n: nat, x: int, y: int, p: int)
    requires IsSquare(g, n)
  {
    exists d, s :: 0 <= s < 5 && FiveAt(g, n, x, y, d, p, s)
  }

  /** Reach from step i covers step m exactly when every step from i to m holds a stone. */
  lemma {:induction false} ReachCovers(g: Grid, n: nat, x: int, y: int, d: Direction, forward: bool, p: int, i: nat, m: nat)
    requires IsSquare(g, n) && 1 <= i <= m + 1 && m <= 4
    ensures Reach(g, n, x, y, d, forward, p, i) >= m - i + 1
        <==> forall j :: i <= j <= m ==> Along(g, n, x, y, d, p, Signed(forward, j))
    decreases m + 1 - i
  {
    if i <= m {
      ReachCovers(g, n, x, y, d, forward, p, i + 1, m);
    }
  }

  /** One axis counts to 5 exactly when it holds five in a row through (x, y). */
  lemma RunIffFive(g: Grid, n: nat, x: int, y: int, d: Direction, p: int)
    requires IsSquare(g, n) && Stone(g, n, x, y, p)
    ensures Run(g, n, x, y, d, p) >= 5 <==> exists s :: 0 <= s < 5 && FiveAt(g, n, x, y, d, p, s)
  {
    var f := Reach(g, n, x, y, d, true, p, 1);
    var b := Reach(g, n, x, y, d, false, p, 1);
    assert Along(g, n, x, y, d, p, 0);
    if f + b >= 4 {
      var s: int := b;
      ReachCovers(g, n, x, y, d, false, p, 1, s);
      ReachCovers(g, n, x, y, d, true, p, 1, 4 - s);
      forall k: int | -s <= k < 5 - s
        ensures Along(g, n, x, y, d, p, k)
      {
        if k < 0 {
          assert Along(g, n, x, y, d, p, Signed(false, -k));
        } else if k > 0 {
          assert Along(g, n, x, y, d, p, Signed(true, k));
        }
      }
      assert FiveAt(g, n, x, y, d, p, s);
    }
    if s :| 0 <= s < 5 && FiveAt(g, n, x, y, d, p, s) {
      forall j | 1 <= j <= s
        ensures Along(g, n, x, y, d, p, Signed(false, j))
      {
        assert Along(g, n, x, y, d, p, -j);
      }
      forall j | 1 <= j <= 4 - s
        ensures Along(g, n, x, y, d, p, Signed(true, j))
      {
        assert Along(g, n, x, y, d, p, j);
      }
      ReachCovers(g, n, x, y, d, false, p, 1, s);
      ReachCovers(g, n, x, y, d, true, p, 1, 4 - s);
    }
  }

  /**
   * `check_win` after placing p at (x, y) is true exactly when five contiguous
   * stones of p lie on one of the four axes through (x, y).
   */
  lemma WinIffFiveInARow(g: Grid, n: nat, x: int, y: int, p: int)
    requires IsSquare(g, n) && Stone(g, n, x, y, p)
    ensures CheckWin(g, n, x, y, p) <==> FiveInARowThrough(g, n, x, y, p)
  {
    forall d | d in Directions {
      RunIffFive(g, n, x, y, d, p);
    }
    if FiveInARowThrough(g, n, x, y, p) {
      var d, s :| 0 <= s < 5 && FiveAt(g, n, x, y, d, p, s);
      EveryDirectionScanned(d);
      RunIffFive(g, n, x, y, d, p);
    }
  }

  // ---------------------------------------------------------------------------
  // Full board and stone count

  /** `is_full()`: no cell holds 0. */
  predicate IsFull(g: Grid) {
    forall y, x :: 0 <= y < |g| && 0 <= x < |g[y]| ==> g[y][x] != 0
  }

  function CountRow(r: seq<int>): nat {
    if r == [] then 0 else (if r[0] != 0 then 1 else 0) + CountRow(r[1..])
  }

  /** The number of stones on the board. */
  function Filled(g: Grid): nat {
    if g == [] then 0 else CountRow(g[0]) + Filled(g[1..])
  }

  lemma {:induction false} FilledAllEmpty(g: Grid)
    requires forall y, x :: 0 <= y < |g| && 0 <= x < |g[y]| ==> g[y][x] == 0
    ensures Filled(g) == 0
  {
    if g != [] {
      CountRowAllEmpty(g[0]);
      FilledAllEmpty(g[1..]);
    }
  }

  lemma {:induction false} CountRowAllEmpty(r: seq<int>)
    requires forall x :: 0 <= x < |r| ==> r[x] == 0
    ensures CountRow(r) == 0
  {
    if r != [] {
      CountRowAllEmpty(r[1..]);
    }
  }

  /** Putting a stone on an empty cell of a row adds one stone to the row. */
  lemma {:induction false} CountRowPlace(r: seq<int>, x: nat, p: int)
    requires x < |r| && r[x] == 0 && p != 0
    ensures CountRow(r[x := p]) == CountRow(r) + 1
  {
    if x > 0 {
      assert r[x := p][1..] == r[1..][x - 1 := p];
      CountRowPlace(r[1..], x - 1, p);
    } else {
      assert r[x := p][1..] == r[1..];
    }
  }

  lemma {:induction false} FilledReplaceRow(g: Grid, y: nat, row: seq<int>)
    requires y < |g|
    ensures Filled(g[y := row]) + CountRow(g[y]) == Filled(g) + CountRow(row)
  {
    if y > 0 {
      assert g[y := row][1..] == g[1..][y - 1 := row];
      FilledReplaceRow(g[1..], y - 1, row);
    } else {
      assert g[y := row][1..] == g[1..];
    }
  }

  // ---------------------------------------------------------------------------
  // Making a move

  /** `player=None` stands for the current player. */
  function PlayerFor(s: BoardState, player: Option<int>): int {
    if player.Some? then player.value else s.currentPlayer
  }

  /** `is_valid_move(x, y, player)`. */
  predicate IsValidMove(s: BoardState, x: int, y: int, p: int)
    requires IsSquare(s.grid, s.size)
  {
    !s.gameOver && InBounds(s.size, x, y) && s.grid[y][x] == 0 && p == s.currentPlayer
  }

  /** `board[y][x] = p`. */
  function Place(g: Grid, x: int, y: int, p: int): Grid
    requires 0 <= y < |g| && 0 <= x < |g[y]|
  {
    g[y := g[y][x := p]]
  }

  /** `make_move(x, y, player)`: the new state and the outcome. */
  function MakeMove(s: BoardState, x: int, y: int, player: Option<int>): (r: (BoardState, MoveOutcome))
    requires IsSquare(s.grid, s.size)
    ensures r.0.size == s.size && IsSquare(r.0.grid, r.0.size)
    ensures r.1.Rejected? <==> !IsValidMove(s, x, y, PlayerFor(s, player))
    ensures r.1.Rejected? ==> r.0 == s
    ensures s.gameOver ==> r.1.Rejected?
    ensures !r.1.Rejected? ==>
      && s.grid[y][x] == 0
      && r.0.grid[y][x] == s.currentPlayer
      && (forall j, i :: InBounds(s.size, i, j) && (i, j) != (x, y) ==> r.0.grid[j][i] == s.grid[j][i])
      && r.0.movesHistory == s.movesHistory + [Move(x, y, s.currentPlayer)]
    ensures r.1.Win? ==> r.0.winner == Some(s.currentPlayer) && r.0.gameOver && r.0.currentPlayer == s.currentPlayer
    ensures r.1.Draw? ==> r.0.gameOver && r.0.winner == s.winner && r.0.currentPlayer == s.currentPlayer
    ensures r.1.Continue? ==> !r.0.gameOver && r.0.winner == s.winner && r.0.currentPlayer == 3 - s.currentPlayer
  {
    var p := PlayerFor(s, player);
    if !IsValidMove(s, x, y, p) then (s, Rejected)
    else Settle(Placed(s, x, y, p), x, y, p)
  }

  /** The state once p's stone is written on (x, y) and the move recorded. */
  function Placed(s: BoardState, x: int, y: int, p: int): (t: BoardState)
    requires IsSquare(s.grid, s.size) && InBounds(s.size, x, y)
    ensures IsSquare(t.grid, t.size)
  {
    s.(grid := Place(s.grid, x, y, p), movesHistory := s.movesHistory + [Move(x, y, p)])
  }

  /** The second half of an accepted move, once p's stone is on (x, y): win, draw or hand over the turn. */
  function Settle(t: BoardState, x: int, y: int, p: int): (BoardState, MoveOutcome)
    requires IsSquare(t.grid, t.size)
  {
    if CheckWin(t.grid, t.size, x, y, p) then (t.(winner := Some(p), gameOver := true), Win)
    else if IsFull(t.grid) then (t.(gameOver := true), Draw)
    else (t.(currentPlayer := 3 - p), Continue)
  }

  /** A move in the history: on the board, by a player, and its stone still there. */
  predicate Recorded(s: BoardState, m: Move)
    requires IsSquare(s.grid, s.size)
  {
    InBounds(s.size, m.x, m.y) && (m.player == 1 || m.player == 2) && s.grid[m.y][m.x] == m.player
  }

  /**
   * What every reachable board satisfies: cells hold 0, 1 or 2; the player to
   * move is 1 or 2; every recorded move's stone is on its own cell, and no
   * cell was played twice; a winner ends the game and is the player who made
   * the last move; a game that ended without a winner ended on a full board.
   * (That the stones number exactly the moves is `MoveAddsOneStone`.)
   */
  ghost predicate WellFormed(s: BoardState) {
    && StonesMatchHistory(s)
    && (s.currentPlayer == 1 || s.currentPlayer == 2)
    && (s.winner.Some? ==> s.gameOver && s.winner.value == s.currentPlayer)
    && (s.gameOver && s.winner.None? ==> IsFull(s.grid))
  }

  /** The grid and history half of `WellFormed`. */
  ghost predicate StonesMatchHistory(s: BoardState) {
    && IsSquare(s.grid, s.size)
    && (forall y, x :: InBounds(s.size, x, y) ==> 0 <= s.grid[y][x] <= 2)
    && (forall i :: 0 <= i < |s.movesHistory| ==> Recorded(s, s.movesHistory[i]))
    && (forall i, j :: 0 <= i < j < |s.movesHistory| ==>
          (s.movesHistory[i].x, s.movesHistory[i].y) != (s.movesHistory[j].x, s.movesHistory[j].y))
  }

  /** Writing a valid move's stone and recording it keeps grid and history in step. */
  lemma {:induction false} PlacingKeepsStonesMatched(s: BoardState, x: int, y: int, p: int)
    requires StonesMatchHistory(s) && IsValidMove(s, x, y, p) && (p == 1 || p == 2)
    ensures StonesMatchHistory(Placed(s, x, y, p))
  {
    var t := Placed(s, x, y, p);
    var h := s.movesHistory;
    forall i | 0 <= i < |t.movesHistory|
      ensures Recorded(t, t.movesHistory[i])
    {
      if i < |h| {
        assert Recorded(s, h[i]);
        assert (h[i].x, h[i].y) != (x, y);
      }
    }
  }

  /** `make_move` keeps a well-formed board well formed. */
  lemma MakeMovePreservesWellFormed(s: BoardState, x: int, y: int, player: Option<int>)
    requires WellFormed(s)
    ensures WellFormed(MakeMove(s, x, y, player).0)
  {
    var p := PlayerFor(s, player);
    if IsValidMove(s, x, y, p) {
      var u := Placed(s, x, y, p);
      PlacingKeepsStonesMatched(s, x, y, p);
      assert MakeMove(s, x, y, player) == Settle(u, x, y, p);
    }
  }

  /**
   * A move adds exactly one stone when it is accepted and none when it is
   * rejected, so from a new board the stones always number the moves.
   */
  lemma MoveAddsOneStone(s: BoardState, x: int, y: int, player: Option<int>)
    requires WellFormed(s)
    ensures var t := MakeMove(s, x, y, player).0;
      Filled(t.grid) - Filled(s.grid) == |t.movesHistory| - |s.movesHistory| <= 1
  {
    var p := PlayerFor(s, player);
    if IsValidMove(s, x, y, p) {
      CountRowPlace(s.grid[y], x, p);
      FilledReplaceRow(s.grid, y, s.grid[y][x := p]);
      assert MakeMove(s, x, y, player).0.grid == Place(s.grid, x, y, p);
    }
  }

  /**
   * The outcome of an accepted move, in the game's own terms: "win" exactly when
   * the placed stone completes five in a row, "draw" exactly when it does not and
   * the board is now full, "continue" otherwise.
   */
  lemma AcceptedMoveOutcome(s: BoardState, x: int, y: int, player: Option<int>)
    requires WellFormed(s)
    requires IsValidMove(s, x, y, PlayerFor(s, player))
    ensures var (t, o) := MakeMove(s, x, y, player);
      && (o.Win? <==> FiveInARowThrough(t.grid, t.size, x, y, s.currentPlayer))
      && (o.Draw? <==> !FiveInARowThrough(t.grid, t.size, x, y, s.currentPlayer) && IsFull(t.grid))
      && (o.Continue? <==> !FiveInARowThrough(t.grid, t.size, x, y, s.currentPlayer) && !IsFull(t.grid))
  {
    var t := MakeMove(s, x, y, player).0;
    WinIffFiveInARow(t.grid, t.size, x, y, s.currentPlayer);
  }

  // ---------------------------------------------------------------------------
  // Legal moves

  /** Row-major order: by y, then by x. */
  predicate RowMajorBefore(a: (int, int), b: (int, int)) {
    a.1 < b.1 || (a.1 == b.1 && a.0 < b.0)
  }

  predicate RowMajorSorted(ms: seq<(int, int)>) {
    forall i, j :: 0 <= i < j < |ms| ==> RowMajorBefore(ms[i], ms[j])
  }

  /** The empty cells of row y from column x on, as `(x, y)` pairs. */
  function LegalInRow(g: Grid, n: nat, y: int, x: int): seq<(int, int)>
    requires IsSquare(g, n) && 0 <= y < n && 0 <= x <= n
    decreases n - x
  {
    if x == n then []
    else (if g[y][x] == 0 then [(x, y)] else []) + LegalInRow(g, n, y, x + 1)
  }

  /** The empty cells of rows y and below, row by row. */
  function LegalFromRow(g: Grid, n: nat, y: int): seq<(int, int)>
    requires IsSquare(g, n) && 0 <= y <= n
    decreases n - y
  {
    if y == n then [] else LegalInRow(g, n, y, 0) + LegalFromRow(g, n, y + 1)
  }

  /** `get_legal_moves()`. */
  function LegalMoves(g: Grid, n: nat): seq<(int, int)>
    requires IsSquare(g, n)
  {
    LegalFromRow(g, n, 0)
  }

  lemma {:induction false} LegalInRowExact(g: Grid, n: nat, y: int, x: int)
    requires IsSquare(g, n) && 0 <= y < n && 0 <= x <= n
    ensures forall m :: m in LegalInRow(g, n, y, x) <==> m.1 == y && x <= m.0 < n && g[y][m.0] == 0
    ensures forall i, j :: 0 <= i < j < |LegalInRow(g, n, y, x)| ==> LegalInRow(g, n, y, x)[i].0 < LegalInRow(g, n, y, x)[j].0
    decreases n - x
  {
    if x < n {
      LegalInRowExact(g, n, y, x + 1);
    }
  }

  lemma {:induction false} LegalFromRowExact(g: Grid, n: nat, y: int)
    requires IsSquare(g, n) && 0 <= y <= n
    ensures forall m :: m in LegalFromRow(g, n, y) <==> y <= m.1 < n && 0 <= m.0 < n && g[m.1][m.0] == 0
    ensures RowMajorSorted(LegalFromRow(g, n, y))
    decreases n - y
  {
    if y < n {
      LegalInRowExact(g, n, y, 0);
      LegalFromRowExact(g, n, y + 1);
      var a, b := LegalInRow(g, n, y, 0), LegalFromRow(g, n, y + 1);
      forall i, j | 0 <= i < j < |a + b|
        ensures RowMajorBefore((a + b)[i], (a + b)[j])
      {
        if j < |a| {
          assert a[i].0 < a[j].0 && a[i].1 == y == a[j].1;
        } else if i < |a| {
          assert a[i] in a && b[j - |a|] in b;
        } else {
          assert RowMajorBefore(b[i - |a|], b[j - |a|]);
        }
      }
    }
  }

  /** `get_legal_moves` lists exactly the empty cells, each once, in row-major order. */
  lemma LegalMovesAreEmptyCells(g: Grid, n: nat)
    requires IsSquare(g, n)
    ensures forall m :: m in LegalMoves(g, n) <==> InBounds(n, m.0, m.1) && g[m.1][m.0] == 0
    ensures RowMajorSorted(LegalMoves(g, n))
  {
    LegalFromRowExact(g, n, 0);
  }
}
