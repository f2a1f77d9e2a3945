/** The earlier GameState (package com.example.goapp.data). Its board, Ko
    rule, preliminary check and inputMove behave the same as in the current
    engine, differing only in statement or expression form and comments,
    and are modelled there. Modelled here is the liberty search, whose base
    case first tests whether every neighbour is non-friendly and then
    returns (false, visited) on both branches, and the legality check that
    calls it. */
module LegacyEngine {
  import opened Board
  import opened Groups
  import Liberties
  import Engine

  /** hasLiberties(startLocation, visited) of the earlier GameState. */
  method HasLibertiesFrom(g: Grid, start: Coord, visited: set<Coord>, ghost root: Coord)
    returns (found: bool, result: set<Coord>)
    requires IsSquare(g) && InBounds(|g|, start) && At(g, start) != Empty
    requires Reachable(g, root, start) && start !in visited
    requires visited <= Group(g, root)
    decreases Cells(|g|) - visited
    ensures found ==> result == {} && GroupHasLiberty(g, Group(g, root))
    ensures !found ==> visited + {start} <= result <= Group(g, root)
    ensures !found ==> forall p, q :: p in result - visited && InBounds(|g|, q) && Adjacent(p, q) ==>
                         At(g, q) != Empty && (At(g, q) == At(g, start) ==> q in result)
  {
    ReachableColour(g, root, start);
    var vis := visited + {start};
    var friendlyPlayer := At(g, start);
    var nbs := Neighbours(|g|, start);
    NeighboursExact(|g|, start);
    var i := 0;
    while i < 4
      invariant 0 <= i <= 4
      invariant visited + {start} <= vis <= Group(g, root)
      invariant forall p, q :: p in vis - visited - {start} && InBounds(|g|, q) && Adjacent(p, q) ==>
                  At(g, q) != Empty && (At(g, q) == friendlyPlayer ==> q in vis)
      invariant forall j :: 0 <= j < i && nbs[j].Some? ==>
                  At(g, nbs[j].value) != Empty && (At(g, nbs[j].value) == friendlyPlayer ==> nbs[j].value in vis)
    {
      if nbs[i].Some? && nbs[i].value !in vis {
        var l := nbs[i].value;
        if At(g, l) == Empty {
          assert start in Group(g, root) && LibertyOf(g, start, l);
          return true, {};
        } else if At(g, l) == friendlyPlayer {
          ReachableStep(g, root, start, l);
          assert Cells(|g|) - vis < Cells(|g|) - visited by {
            assert start in Cells(|g|) - visited;
          }
          var sub;
          found, sub := HasLibertiesFrom(g, l, vis, root);
          if found {
            return true, {};
          }
          vis := vis + sub;
        }
      }
      i := i + 1;
    }
    forall q | InBounds(|g|, q) && Adjacent(start, q)
      ensures At(g, q) != Empty && (At(g, q) == friendlyPlayer ==> q in vis)
    {
      var j :| 0 <= j < 4 && nbs[j] == Some(q);
    }
    // the extra base case: no neighbour holds a friendly piece
    var noFriendlyNeighbour :=
      (nbs[0].None? || At(g, nbs[0].value) != friendlyPlayer) &&
      (nbs[1].None? || At(g, nbs[1].value) != friendlyPlayer) &&
      (nbs[2].None? || At(g, nbs[2].value) != friendlyPlayer) &&
      (nbs[3].None? || At(g, nbs[3].value) != friendlyPlayer);
    if noFriendlyNeighbour {
      return false, vis;
    }
    return false, vis;
  }

  /** hasLiberties(row, col) of the earlier GameState: the same result as the
      current search. */
  method HasLiberties(g: Grid, start: Coord) returns (found: bool, dead: set<Coord>)
    requires IsSquare(g) && InBounds(|g|, start) && At(g, start) != Empty
    ensures found <==> GroupHasLiberty(g, Group(g, start))
    ensures dead == if found then {} else Group(g, start)
  {
    ReachableSelf(g, start);
    found, dead := HasLibertiesFrom(g, start, {}, start);
    if !found {
      GroupCharacterized(g, dead, start);
    }
  }

  /** The two searches agree on every board: the redundant base case changes
      nothing. */
  method SearchesAgree(g: Grid, start: Coord) returns (legacy: (bool, set<Coord>), current: (bool, set<Coord>))
    requires IsSquare(g) && InBounds(|g|, start) && At(g, start) != Empty
    ensures legacy == current
  {
    var found, dead := HasLiberties(g, start);
    legacy := (found, dead);
    found, dead := Liberties.HasLiberties(g, start);
    current := (found, dead);
  }

  /** checkLegalAndInputMove of the earlier GameState: the preliminary check,
      the (identical) inputMove, then the self-capture test with the earlier
      search. Same outcome as the current engine. */
  method CheckLegalAndInputMove(s: Engine.GameState, row: int, col: int, piece: Piece)
    returns (res: Engine.IllegalMove, t: Engine.GameState)
    requires Engine.Valid(s) && InBounds(s.boardSize, Coord(row, col))
    ensures Engine.Valid(t)
    ensures res != Engine.NoIllegalMove ==> t == s
    ensures res == Engine.WrongPlayerToMove <==> piece != s.activePlayer
    ensures res == Engine.Ko <==> piece == s.activePlayer && s.locationWithKo == Some(Coord(row, col))
    ensures res == Engine.SelfCapture <==>
              piece == s.activePlayer && s.locationWithKo != Some(Coord(row, col)) &&
              !GroupHasLiberty(Engine.MoveResult(s, row, col, piece).board,
                               Group(Engine.MoveResult(s, row, col, piece).board, Coord(row, col)))
    ensures res == Engine.NoIllegalMove <==> Engine.MoveIsLegal(s, row, col, piece)
    ensures res == Engine.NoIllegalMove ==> t == Engine.MoveResult(s, row, col, piece)
  {
    var preliminaryLegality := Engine.CheckMoveIsLegalPreliminary(s, row, col, piece);
    if preliminaryLegality != Engine.NoIllegalMove {
      return preliminaryLegality, s;
    }
    var newGameState := Engine.InputMove(s, row, col, piece);
    Engine.PlacedStoneRemains(s, row, col, piece);
    var found, _ := HasLiberties(newGameState.board, Coord(row, col));
    if !found {
      return Engine.SelfCapture, s;
    }
    return Engine.NoIllegalMove, newGameState;
  }
}
