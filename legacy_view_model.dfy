/** The earlier session controller (com.example.goapp.ui.GoViewModel): the
    current state and an undo stack, without passing or game over. Moves
    are checked with the earlier engine's checkLegalAndInputMove. */
module LegacySession {
  import opened Board
  import Engine
  import LegacyEngine

  class LegacyGoViewModel {
    // GoUiState
    var boardsize: int
    var gameState: Engine.GameState
    var gameStateStack: seq<Engine.GameState>

    predicate Valid()
      reads this
    {
      && boardsize >= 0
      && Engine.Valid(gameState) && gameState.boardSize == boardsize
      && forall i :: 0 <= i < |gameStateStack| ==>
           Engine.Valid(gameStateStack[i]) && gameStateStack[i].boardSize == boardsize
    }

    /** GoUiState(): a new 9 x 9 game with an empty stack. */
    constructor ()
      ensures Valid()
      ensures boardsize == Engine.DefaultBoardSize && gameState == Engine.NewGame(Engine.DefaultBoardSize)
      ensures gameStateStack == []
    {
      boardsize := Engine.DefaultBoardSize;
      gameState := Engine.NewGame(Engine.DefaultBoardSize);
      gameStateStack := [];
    }

    /** makeNewGame: a fresh state of the given size and an empty stack. */
    method MakeNewGame(boardsize': int)
      requires boardsize' >= 0
      modifies this
      ensures Valid()
      ensures boardsize == boardsize' && gameState == Engine.NewGame(boardsize') && gameStateStack == []
    {
      boardsize := boardsize';
      gameState := Engine.NewGame(boardsize');
      gameStateStack := [];
    }

    /** getActivePlayer */
    function ActivePlayer(): (p: Piece)
      requires Valid()
      reads this
      ensures p != Empty && p == gameState.activePlayer
    {
      gameState.activePlayer
    }

    /** inputMove: the new state becomes current; the old one is appended at
        the end of the stack. */
    method InputMove(newGameState: Engine.GameState)
      requires Valid() && Engine.Valid(newGameState) && newGameState.boardSize == boardsize
      modifies this
      ensures Valid()
      ensures gameState == newGameState && gameStateStack == old(gameStateStack) + [old(gameState)]
      ensures boardsize == old(boardsize)
    {
      var oldGameState := gameState;
      gameState := newGameState;
      gameStateStack := gameStateStack + [oldGameState];
    }

    /** undoMove: the last state of the stack is removed and made current;
        nothing happens when the stack is empty. */
    method UndoMove()
      requires Valid()
      modifies this
      ensures Valid()
      ensures |old(gameStateStack)| == 0 ==> gameState == old(gameState) && gameStateStack == []
      ensures |old(gameStateStack)| > 0 ==>
                gameState == old(gameStateStack)[|old(gameStateStack)| - 1] &&
                gameStateStack == old(gameStateStack)[..|old(gameStateStack)| - 1]
      ensures boardsize == old(boardsize)
    {
      if |gameStateStack| > 0 {
        var newGameState := gameStateStack[|gameStateStack| - 1];
        gameStateStack := gameStateStack[..|gameStateStack| - 1];
        gameState := newGameState;
      }
    }

    /** checkLegalAndInputMove: only a legal move changes the current state
        or the stack. */
    method CheckLegalAndInputMove(row: int, col: int, piece: Piece)
      requires Valid() && InBounds(boardsize, Coord(row, col))
      modifies this
      ensures Valid()
      ensures Engine.MoveIsLegal(old(gameState), row, col, piece) ==>
                gameState == Engine.MoveResult(old(gameState), row, col, piece) &&
                gameStateStack == old(gameStateStack) + [old(gameState)]
      ensures !Engine.MoveIsLegal(old(gameState), row, col, piece) ==>
                gameState == old(gameState) && gameStateStack == old(gameStateStack)
      ensures boardsize == old(boardsize)
    {
      var illegalMoveObject, newGameState := LegacyEngine.CheckLegalAndInputMove(gameState, row, col, piece);
      if illegalMoveObject == Engine.NoIllegalMove {
        InputMove(newGameState);
      }
    }
  }
}
