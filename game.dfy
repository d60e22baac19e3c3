/**
 * `CaroGame`: one game between two external player ids, which move as board
 * players 1 and 2. The clock is a parameter: `now` is whatever
 * `time.time()` returned, kept only as an opaque start or end marker.
 */
module Game {
  import opened Common
  import opened Rules
  import opened Board

  /** The dictionary `get_game_state()` returns. */
  datatype GameState = GameState(
    board: seq<seq<int>>,
    currentPlayer: int,
    moves: nat,
    winner: Option<int>,
    gameOver: bool,
    playerTurn: ClientId)

  /** Which board player an id moves as: player 1's id is compared first. */
  function PlayerNumber(player1Id: ClientId, player2Id: ClientId, id: ClientId): (n: Option<int>)
    ensures n == Some(1) <==> id == player1Id
    ensures n == Some(2) <==> id != player1Id && id == player2Id
    ensures n == None <==> id != player1Id && id != player2Id
  {
    if id == player1Id then Some(1)
    else if id == player2Id then Some(2)
    else None
  }

  class CaroGame {
    const player1Id: ClientId
    const player2Id: ClientId
    const board: CaroBoard
    var startTime: Option<int>
    var endTime: Option<int>

    ghost predicate Valid()
      reads this, board, board.board
    {
      board.Valid()
    }

    /** `CaroGame(player1_id, player2_id)`: a fresh 15 × 15 board, no start or end marker. */
    constructor (player1Id: ClientId, player2Id: ClientId)
      ensures Valid() && fresh(board) && fresh(board.board)
      ensures this.player1Id == player1Id && this.player2Id == player2Id
      ensures board.size == DefaultSize && board.State() == NewBoard(board.size)
      ensures startTime == None && endTime == None
    {
      this.player1Id := player1Id;
      this.player2Id := player2Id;
      startTime := None;
      endTime := None;
      board := new CaroBoard(DefaultSize);
    }

    /** `start()`: record the start marker. */
    method Start(now: int)
      modifies this
      ensures startTime == Some(now) && endTime == old(endTime)
    {
      startTime := Some(now);
    }

    /**
     * `make_move(player_id, x, y)`: a stranger's move is refused without
     * touching the board; otherwise the board decides, as its own player
     * number, and a move that ends the game sets the end marker.
     */
    method MakeMove(playerId: ClientId, x: int, y: int, now: int) returns (success: bool, message: string)
      requires Valid()
      modifies this, board, board.board
      ensures Valid() && board.board == old(board.board) && startTime == old(startTime)
      ensures PlayerNumber(player1Id, player2Id, playerId).None? ==>
        && !success && message == "Not a player in this game"
        && board.State() == old(board.State()) && endTime == old(endTime)
      ensures PlayerNumber(player1Id, player2Id, playerId).Some? ==>
        var (s, o) := Rules.MakeMove(old(board.State()), x, y, PlayerNumber(player1Id, player2Id, playerId));
        && board.State() == s && success == o.Success() && message == o.Message()
        && endTime == (if o.Ends() then Some(now) else old(endTime))
    {
      var player;
      if playerId == player1Id {
        player := 1;
      } else if playerId == player2Id {
        player := 2;
      } else {
        return false, "Not a player in this game";
      }
      success, message := board.MakeMove(x, y, Some(player));
      if success && (message == "win" || message == "draw") {
        endTime := Some(now);
      }
    }

    /** `get_player_turn()`: player 1's id when board player 1 is to move, else player 2's. */
    function GetPlayerTurn(): ClientId
      reads this, board
    {
      if board.currentPlayer == 1 then player1Id else player2Id
    }

    /** `get_game_state()`: a snapshot of the board and whose turn it is. */
    method GetGameState() returns (st: GameState)
      requires Valid()
      ensures st.board == board.State().grid
      ensures st.currentPlayer == board.currentPlayer
      ensures st.moves == |board.movesHistory|
      ensures st.winner == board.winner && st.gameOver == board.gameOver
      ensures st.playerTurn == GetPlayerTurn()
    {
      var rows := board.GetBoard();
      st := GameState(rows, board.currentPlayer, |board.movesHistory|, board.winner, board.gameOver, GetPlayerTurn());
    }
  }

  /**
   * With two different ids, the id `get_player_turn` names is the one that
   * moves as the board's current player.
   */
  lemma TurnNamesCurrentPlayer(g: CaroGame)
    requires g.Valid() && g.player1Id != g.player2Id
    ensures PlayerNumber(g.player1Id, g.player2Id, g.GetPlayerTurn()) == Some(g.board.currentPlayer)
  {
    assert WellFormed(g.board.State());
  }
}
