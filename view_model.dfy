/** The game session controller (GoViewModel with its GoUiState): the
    current game state, the undo stack of earlier states, the game-over flag,
    and the choice to look at the final board instead of the game-over
    dialog. */
module Session {
  import opened Board
  import opened Groups
  import Engine
  import Scoring

  /** Two states whose boards agree: the top of the stack and the current
      state show the same position. */
  predicate BoardRepeated(gameState: Engine.GameState, gameStateStack: seq<Engine.GameState>)
  {
    |gameStateStack| > 0 && gameStateStack[|gameStateStack| - 1].board == gameState.board
  }

  class GoViewModel {
    // GoUiState
    var boardSize: int
    var gameState: Engine.GameState
    var gameStateStack: seq<Engine.GameState>
    var isGameOver: bool
    // a field of the view model itself, outside GoUiState
    var seeEndGameState: bool

    /** Every state held, current or stacked, is a valid state of the
        session's board size. */
    predicate Valid()
      reads this
    {
      && boardSize >= 0
      && Engine.Valid(gameState) && gameState.boardSize == boardSize
      && forall i :: 0 <= i < |gameStateStack| ==>
           Engine.Valid(gameStateStack[i]) && gameStateStack[i].boardSize == boardSize
    }

    /** A fresh view model holds GoUiState(): a new 9 x 9 game, an empty
        stack, the game not over. */
    constructor ()
      ensures Valid()
      ensures boardSize == Engine.DefaultBoardSize && gameState == Engine.NewGame(Engine.DefaultBoardSize)
      ensures gameStateStack == [] && !isGameOver && !seeEndGameState
    {
      boardSize := Engine.DefaultBoardSize;
      gameState := Engine.NewGame(Engine.DefaultBoardSize);
      gameStateStack := [];
      isGameOver := false;
      seeEndGameState := false;
    }

    /** makeNewGame: a new GoUiState of the given size. seeEndGameState is not
        part of GoUiState and keeps its value. */
    method MakeNewGame(boardsize: int)
      requires boardsize >= 0
      modifies this
      ensures Valid()
      ensures boardSize == boardsize && gameState == Engine.NewGame(boardsize)
      ensures gameStateStack == [] && !isGameOver
      ensures seeEndGameState == old(seeEndGameState)
    {
      boardSize := boardsize;
      gameState := Engine.NewGame(boardsize);
      gameStateStack := [];
      isGameOver := false;
    }

    /** getActivePlayer: the player whose turn it is, never EMPTY. */
    function ActivePlayer(): (p: Piece)
      requires Valid()
      reads this
      ensures p != Empty && p == gameState.activePlayer
    {
      gameState.activePlayer
    }

    /** inputMove: the new state becomes current and the old one is pushed. */
    method InputMove(newGameState: Engine.GameState)
      requires Valid() && Engine.Valid(newGameState) && newGameState.boardSize == boardSize
      modifies this
      ensures Valid()
      ensures gameState == newGameState && gameStateStack == old(gameStateStack) + [old(gameState)]
      ensures boardSize == old(boardSize) && isGameOver == old(isGameOver)
      ensures seeEndGameState == old(seeEndGameState)
    {
      var oldGameState := gameState;
      gameState := newGameState;
      gameStateStack := gameStateStack + [oldGameState];
    }

    /** checkConsecutivePasses: false on an empty stack; otherwise compares
        the current board with the board on top of the stack, location by
        location. */
    method CheckConsecutivePasses() returns (r: bool)
      requires Valid()
      ensures r == BoardRepeated(gameState, gameStateStack)
    {
      if |gameStateStack| < 1 {
        return false;
      }
      var currentBoard := gameState.board;
      var previousBoard := gameStateStack[|gameStateStack| - 1].board;
      var n := |currentBoard|;
      var row := 0;
      while row < n
        invariant 0 <= row <= n
        invariant forall r :: 0 <= r < row ==> currentBoard[r] == previousBoard[r]
      {
        var col := 0;
        while col < n
          invariant 0 <= col <= n
          invariant forall c :: 0 <= c < col ==> currentBoard[row][c] == previousBoard[row][c]
        {
          if currentBoard[row][col] != previousBoard[row][col] {
            return false;
          }
          col := col + 1;
        }
        row := row + 1;
      }
      return true;
    }

    /** passTurnAndCheckGameOver: if the current board repeats the one on top
        of the stack, the game is over; then the turn is passed and pushed
        like a move. */
    method PassTurnAndCheckGameOver()
      requires Valid()
      modifies this
      ensures Valid()
      ensures isGameOver == (old(isGameOver) || BoardRepeated(old(gameState), old(gameStateStack)))
      ensures gameState == Engine.PassTurn(old(gameState))
      ensures gameStateStack == old(gameStateStack) + [old(gameState)]
      ensures boardSize == old(boardSize) && seeEndGameState == old(seeEndGameState)
    {
      var twoPasses := CheckConsecutivePasses();
      if twoPasses {
        isGameOver := true;
      }
      var newGameState := Engine.PassTurn(gameState);
      InputMove(newGameState);
    }

    /** undoMove: pops the top of the stack into the current state; nothing
        happens on an empty stack. */
    method UndoMove()
      requires Valid()
      modifies this
      ensures Valid()
      ensures |old(gameStateStack)| == 0 ==> gameState == old(gameState) && gameStateStack == []
      ensures |old(gameStateStack)| > 0 ==>
                gameState == old(gameStateStack)[|old(gameStateStack)| - 1] &&
                gameStateStack == old(gameStateStack)[..|old(gameStateStack)| - 1]
      ensures boardSize == old(boardSize) && isGameOver == old(isGameOver)
      ensures seeEndGameState == old(seeEndGameState)
    {
      if |gameStateStack| > 0 {
        var newGameState := gameStateStack[|gameStateStack| - 1];
        gameStateStack := gameStateStack[..|gameStateStack| - 1];
        gameState := newGameState;
      }
    }

    /** checkLegalAndInputMove: a legal move is made current with the old
        state pushed; an illegal one (self-capture, wrong player, Ko) changes
        nothing. */
    method CheckLegalAndInputMove(row: int, col: int, piece: Piece)
      requires Valid() && InBounds(boardSize, Coord(row, col))
      modifies this
      ensures Valid()
      ensures Engine.MoveIsLegal(old(gameState), row, col, piece) ==>
                gameState == Engine.MoveResult(old(gameState), row, col, piece) &&
                gameStateStack == old(gameStateStack) + [old(gameState)]
      ensures !Engine.MoveIsLegal(old(gameState), row, col, piece) ==>
                gameState == old(gameState) && gameStateStack == old(gameStateStack)
      ensures boardSize == old(boardSize) && isGameOver == old(isGameOver)
      ensures seeEndGameState == old(seeEndGameState)
    {
      var illegalMoveObject, newGameState := Engine.CheckLegalAndInputMove(gameState, row, col, piece);
      if illegalMoveObject == Engine.NoIllegalMove {
        InputMove(newGameState);
      }
    }

    /** generateGameOverText on the current board's area score. */
    method GenerateGameOverText() returns (text: string)
      requires Valid()
      ensures text == GameOverText(|Scoring.Owned(gameState.board, Player1)|, |Scoring.Owned(gameState.board, Player2)|)
    {
      var first, second := Scoring.CalculateAreaScore(gameState);
      text := GameOverText(first, second);
    }

    /** showGameOverDialog */
    function ShowGameOverDialog(): (r: bool)
      reads this
      ensures r <==> isGameOver && !seeEndGameState
    {
      if !seeEndGameState && isGameOver then true
      else if !isGameOver then false
      else false
    }

    /** setSeeEndGameStateTrue: the dialog is not shown any more. */
    method SetSeeEndGameStateTrue()
      requires Valid()
      modifies this
      ensures Valid()
      ensures seeEndGameState && !ShowGameOverDialog()
      ensures boardSize == old(boardSize) && gameState == old(gameState)
      ensures gameStateStack == old(gameStateStack) && isGameOver == old(isGameOver)
    {
      seeEndGameState := true;
    }
  }

  /** Two passes in a row end the game, whatever came before. */
  method PassTwiceEndsGame(vm: GoViewModel)
    requires vm.Valid()
    modifies vm
    ensures vm.Valid() && vm.isGameOver
    ensures vm.ShowGameOverDialog() <==> !vm.seeEndGameState
  {
    vm.PassTurnAndCheckGameOver();
    vm.PassTurnAndCheckGameOver();
  }

  /** A legal move followed by an undo restores the state and the stack. */
  method MoveThenUndo(vm: GoViewModel, row: int, col: int, piece: Piece)
    requires vm.Valid() && InBounds(vm.boardSize, Coord(row, col))
    modifies vm
    ensures vm.Valid()
    ensures vm.gameState == old(vm.gameState) && vm.gameStateStack == old(vm.gameStateStack)
    ensures vm.isGameOver == old(vm.isGameOver)
  {
    var depth := |vm.gameStateStack|;
    vm.CheckLegalAndInputMove(row, col, piece);
    if |vm.gameStateStack| > depth {
      vm.UndoMove();
    }
  }

  // ---------------------------------------------------------------------
  // The game-over text

  function DigitChar(d: int): char
    requires 0 <= d < 10
  {
    "0123456789"[d]
  }

  /** The decimal digits of n, as Int.toString gives them for n >= 0. */
  function NatToString(n: nat): (s: string)
    decreases n
    ensures |s| > 0 && forall i :: 0 <= i < |s| ==> '0' <= s[i] <= '9'
    ensures |s| > 1 ==> s[0] != '0'
  {
    if n < 10 then [DigitChar(n)] else NatToString(n / 10) + [DigitChar(n % 10)]
  }

  /** Reading decimal digits back. */
  function ParseDigits(s: string): nat
    requires forall i :: 0 <= i < |s| ==> '0' <= s[i] <= '9'
  {
    if |s| == 0 then 0 else 10 * ParseDigits(s[..|s| - 1]) + ((s[|s| - 1] as int) - ('0' as int))
  }

  lemma {:induction false} NatToStringRoundTrip(n: nat)
    ensures ParseDigits(NatToString(n)) == n
  {
    var s := NatToString(n);
    if n >= 10 {
      NatToStringRoundTrip(n / 10);
      assert s[..|s| - 1] == NatToString(n / 10);
    }
  }

  /** The announcement before the score. */
  function WinnerText(p1: int, p2: int): string
  {
    if p1 > p2 then "Player 1 wins"
    else if p1 < p2 then "Player 2 wins"
    else "It's a draw"
  }

  /** "<winner text> (p1 to p2)" */
  function GameOverText(p1: nat, p2: nat): string
  {
    WinnerText(p1, p2) + " (" + NatToString(p1) + " to " + NatToString(p2) + ")"
  }

  /** The text names the player with the larger score, or a draw, and in
      each case only then. */
  lemma GameOverTextAnnounces(p1: nat, p2: nat)
    ensures GameOverText(p1, p2)[..13] == "Player 1 wins" <==> p1 > p2
    ensures GameOverText(p1, p2)[..13] == "Player 2 wins" <==> p1 < p2
    ensures GameOverText(p1, p2)[..11] == "It's a draw" <==> p1 == p2
  {
    var t := GameOverText(p1, p2);
    assert t[..|WinnerText(p1, p2)|] == WinnerText(p1, p2);
    if p1 > p2 {
      assert t[..13] == "Player 1 wins";
      assert t[..11] != "It's a draw" by { assert t[0] == 'P'; }
    } else if p1 < p2 {
      assert t[..13] == "Player 2 wins";
      assert t[..11] != "It's a draw" by { assert t[0] == 'P'; }
    } else {
      assert t[..11] == "It's a draw";
      assert t[..13] != "Player 1 wins" && t[..13] != "Player 2 wins" by { assert t[0] == 'I'; }
    }
  }
}
