/** The rules engine: GameState with its legality checks, move input with
    capture and Ko, and passing. Every operation returns a new state; the
    input state is a value and is never changed. */
module Engine {
  import opened Board
  import opened Groups
  import Liberties

  /** IllegalMove; NoIllegalMove is the source's NONE (a legal move). */
  datatype IllegalMove = SelfCapture | WrongPlayerToMove | Ko | NoIllegalMove

  datatype GameState = GameState(
    activePlayer: Piece,
    boardSize: int,
    board: Grid,
    locationWithKo: Option<Coord>)

  /** The board size used when none is given. */
  const DefaultBoardSize := 9

  /** A state as the app builds it: a boardSize x boardSize board and a
      player (never EMPTY) to move. */
  predicate Valid(s: GameState)
  {
    s.boardSize >= 0 && |s.board| == s.boardSize && IsSquare(s.board) && s.activePlayer != Empty
  }

  /** The GameState constructor with its defaults: an empty board, PLAYER1 to
      move, no Ko. */
  function NewGame(boardSize: int): (s: GameState)
    requires boardSize >= 0
    ensures Valid(s) && s.boardSize == boardSize
    ensures s.activePlayer == Player1 && s.locationWithKo == None
    ensures forall p :: InBounds(boardSize, p) ==> At(s.board, p) == Empty
  {
    GameState(Player1, boardSize, seq(boardSize, _ => seq(boardSize, _ => Empty)), None)
  }

  /** checkMoveIsLegalPreliminary: the wrong player is reported first, then
      Ko; whether the location is occupied is not examined. */
  function CheckMoveIsLegalPreliminary(s: GameState, row: int, col: int, piece: Piece): (r: IllegalMove)
    requires Valid(s) && InBounds(s.boardSize, Coord(row, col))
    ensures r == WrongPlayerToMove <==> piece != s.activePlayer
    ensures r == Ko <==> piece == s.activePlayer && s.locationWithKo == Some(Coord(row, col))
    ensures r != SelfCapture
  {
    if s.activePlayer != piece then WrongPlayerToMove
    else if s.locationWithKo == Some(Coord(row, col)) then Ko
    else NoIllegalMove
  }

  /** The preliminary check reads only the player to move and the Ko point. */
  lemma PreliminaryIgnoresBoard(s: GameState, s': GameState, row: int, col: int, piece: Piece)
    requires Valid(s) && Valid(s') && InBounds(s.boardSize, Coord(row, col)) && InBounds(s'.boardSize, Coord(row, col))
    requires s.activePlayer == s'.activePlayer && s.locationWithKo == s'.locationWithKo
    ensures CheckMoveIsLegalPreliminary(s, row, col, piece) == CheckMoveIsLegalPreliminary(s', row, col, piece)
  {
  }

  /** passTurn: the other player moves next on the same board, and no Ko
      point is carried over. */
  function PassTurn(s: GameState): (r: GameState)
    requires Valid(s)
    ensures Valid(r) && r.boardSize == s.boardSize && r.board == s.board
    ensures r.activePlayer == Opposite(s.activePlayer) && r.activePlayer != s.activePlayer
    ensures r.locationWithKo == None
  {
    GameState(Opposite(s.activePlayer), s.boardSize, s.board, None)
  }

  // ---------------------------------------------------------------------
  // What a move does, stated over the board right after the stone is placed

  predicate OnBoard(n: int, nbs: seq<Option<Coord>>)
  {
    forall j :: 0 <= j < |nbs| && nbs[j].Some? ==> InBounds(n, nbs[j].value)
  }

  /** q holds an opponent stone whose group has no liberty: it is captured. */
  ghost predicate IsCapturedGroup(g1: Grid, q: Option<Coord>, opp: Piece)
    requires IsSquare(g1)
  {
    q.Some? && InBounds(|g1|, q.value) && At(g1, q.value) == opp && !GroupHasLiberty(g1, Group(g1, q.value))
  }

  /** The stones removed when the neighbours nbs are examined in order. */
  ghost function CapturedStones(g1: Grid, nbs: seq<Option<Coord>>, opp: Piece): set<Coord>
    requires IsSquare(g1)
  {
    if nbs == [] then {}
    else
      var q := nbs[|nbs| - 1];
      CapturedStones(g1, nbs[..|nbs| - 1], opp) +
      (if IsCapturedGroup(g1, q, opp) then Group(g1, q.value) else {})
  }

  /** The Ko point: the last examined neighbour whose captured group was a
      single stone, if any. */
  ghost function KoAfterCapture(g1: Grid, nbs: seq<Option<Coord>>, opp: Piece): Option<Coord>
    requires IsSquare(g1)
  {
    if nbs == [] then None
    else
      var q := nbs[|nbs| - 1];
      if IsCapturedGroup(g1, q, opp) && |Group(g1, q.value)| == 1 then q
      else KoAfterCapture(g1, nbs[..|nbs| - 1], opp)
  }

  /** The state a move leads to: the other player to move; the piece placed;
      every opponent group next to it that has no liberty emptied; Ko set by
      a one-stone capture. */
  ghost function MoveResult(s: GameState, row: int, col: int, piece: Piece): GameState
    requires Valid(s) && InBounds(s.boardSize, Coord(row, col))
  {
    var g1 := Place(s.board, Coord(row, col), piece);
    var opp := Opposite(s.activePlayer);
    var nbs := Neighbours(s.boardSize, Coord(row, col));
    GameState(opp, s.boardSize, Cleared(g1, CapturedStones(g1, nbs, opp)), KoAfterCapture(g1, nbs, opp))
  }

  /** Where the captured stones come from: each lies in a captured group of
      one of the examined neighbours, and each such group is captured whole. */
  lemma {:induction false} CapturedStonesFacts(g1: Grid, nbs: seq<Option<Coord>>, opp: Piece)
    requires IsSquare(g1) && OnBoard(|g1|, nbs)
    ensures forall x :: x in CapturedStones(g1, nbs, opp) ==>
              InBounds(|g1|, x) && At(g1, x) == opp &&
              exists j :: 0 <= j < |nbs| && IsCapturedGroup(g1, nbs[j], opp) && x in Group(g1, nbs[j].value)
    ensures forall j :: 0 <= j < |nbs| && IsCapturedGroup(g1, nbs[j], opp) ==>
              Group(g1, nbs[j].value) <= CapturedStones(g1, nbs, opp)
  {
    if nbs != [] {
      var k := |nbs| - 1;
      var pre := nbs[..k];
      CapturedStonesFacts(g1, pre, opp);
      assert forall j :: 0 <= j < k ==> pre[j] == nbs[j];
      forall x | x in CapturedStones(g1, nbs, opp)
        ensures InBounds(|g1|, x) && At(g1, x) == opp &&
                exists j :: 0 <= j < |nbs| && IsCapturedGroup(g1, nbs[j], opp) && x in Group(g1, nbs[j].value)
      {
        if x !in CapturedStones(g1, pre, opp) {
          GroupMember(g1, nbs[k].value, x);
        }
      }
    }
  }

  /** An opponent stone not yet captured lies outside every captured group. */
  lemma NotYetCaptured(g1: Grid, nbs: seq<Option<Coord>>, opp: Piece, q: Coord)
    requires IsSquare(g1) && OnBoard(|g1|, nbs) && InBounds(|g1|, q)
    requires At(g1, q) == opp && q !in CapturedStones(g1, nbs, opp)
    ensures Group(g1, q) !! CapturedStones(g1, nbs, opp)
  {
    CapturedStonesFacts(g1, nbs, opp);
    if x :| x in Group(g1, q) && x in CapturedStones(g1, nbs, opp) {
      var j :| 0 <= j < |nbs| && IsCapturedGroup(g1, nbs[j], opp) && x in Group(g1, nbs[j].value);
      GroupOfMember(g1, q, x);
      GroupOfMember(g1, nbs[j].value, x);
      ReachableSelf(g1, q);
      assert false;
    }
  }

  /** A neighbour already emptied by an earlier capture belongs to a group
      that is captured, is already gone, and has more than one stone. */
  lemma AlreadyCaptured(g1: Grid, nbs: seq<Option<Coord>>, opp: Piece, q: Coord)
    requires IsSquare(g1) && OnBoard(|g1|, nbs)
    requires q in CapturedStones(g1, nbs, opp) && Some(q) !in nbs
    ensures IsCapturedGroup(g1, Some(q), opp)
    ensures Group(g1, q) <= CapturedStones(g1, nbs, opp) && |Group(g1, q)| != 1
  {
    CapturedStonesFacts(g1, nbs, opp);
    var j :| 0 <= j < |nbs| && IsCapturedGroup(g1, nbs[j], opp) && q in Group(g1, nbs[j].value);
    var a := nbs[j].value;
    GroupOfMember(g1, a, q);
    ReachableSelf(g1, a);
    if |Group(g1, q)| == 1 {
      SingletonSet(Group(g1, q), q);
      assert false;
    }
  }

  lemma {:induction false} KoIsSetBySingletonCapture(g1: Grid, nbs: seq<Option<Coord>>, opp: Piece, j: int)
    requires IsSquare(g1) && 0 <= j < |nbs|
    requires IsCapturedGroup(g1, nbs[j], opp) && |Group(g1, nbs[j].value)| == 1
    ensures KoAfterCapture(g1, nbs, opp).Some?
  {
    var k := |nbs| - 1;
    if j < k {
      var pre := nbs[..k];
      assert pre[j] == nbs[j];
      KoIsSetBySingletonCapture(g1, pre, opp, j);
    }
  }

  /** The Ko point is a neighbour whose captured group was that one stone;
      there is none exactly when no captured group had a single stone. */
  lemma {:induction false} KoAfterCaptureFacts(g1: Grid, nbs: seq<Option<Coord>>, opp: Piece)
    requires IsSquare(g1)
    ensures KoAfterCapture(g1, nbs, opp).Some? ==>
              exists j :: 0 <= j < |nbs| && nbs[j] == KoAfterCapture(g1, nbs, opp) &&
                IsCapturedGroup(g1, nbs[j], opp) && Group(g1, nbs[j].value) == {nbs[j].value}
    ensures KoAfterCapture(g1, nbs, opp).None? <==>
              forall j :: 0 <= j < |nbs| && IsCapturedGroup(g1, nbs[j], opp) ==> |Group(g1, nbs[j].value)| != 1
  {
    if nbs != [] {
      var k := |nbs| - 1;
      var pre := nbs[..k];
      KoAfterCaptureFacts(g1, pre, opp);
      assert forall j :: 0 <= j < k ==> pre[j] == nbs[j];
      var q := nbs[k];
      if IsCapturedGroup(g1, q, opp) && |Group(g1, q.value)| == 1 {
        ReachableSelf(g1, q.value);
        SingletonSet(Group(g1, q.value), q.value);
      }
      if KoAfterCapture(g1, nbs, opp).None? {
        forall j | 0 <= j < |nbs| && IsCapturedGroup(g1, nbs[j], opp)
          ensures |Group(g1, nbs[j].value)| != 1
        {
          if |Group(g1, nbs[j].value)| == 1 {
            KoIsSetBySingletonCapture(g1, nbs, opp, j);
          }
        }
      }
    }
  }

  /** The runtime assertion of inputMove: if exactly one stone was captured
      in total, a Ko point is set. */
  lemma KoWhenOneStoneCaptured(g1: Grid, nbs: seq<Option<Coord>>, opp: Piece)
    requires IsSquare(g1) && OnBoard(|g1|, nbs)
    requires |CapturedStones(g1, nbs, opp)| == 1
    ensures KoAfterCapture(g1, nbs, opp).Some?
  {
    CapturedStonesFacts(g1, nbs, opp);
    var x :| x in CapturedStones(g1, nbs, opp);
    SingletonSet(CapturedStones(g1, nbs, opp), x);
    var j :| 0 <= j < |nbs| && IsCapturedGroup(g1, nbs[j], opp) && x in Group(g1, nbs[j].value);
    var a := nbs[j].value;
    ReachableSelf(g1, a);
    assert Group(g1, a) == {x};
    KoIsSetBySingletonCapture(g1, nbs, opp, j);
  }

  // ---------------------------------------------------------------------
  // The imperative move

  /** The loop that empties every captured location. */
  method RemoveStones(g: Grid, dead: set<Coord>) returns (r: Grid)
    requires IsSquare(g)
    requires forall d :: d in dead ==> InBounds(|g|, d)
    ensures r == Cleared(g, dead)
  {
    r := g;
    ClearedNothing(g);
    var remaining := dead;
    assert dead - remaining == {};
    while remaining != {}
      invariant remaining <= dead
      invariant r == Cleared(g, dead - remaining)
      decreases remaining
    {
      var captureLocation :| captureLocation in remaining;
      ghost var before := r;
      r := Place(r, captureLocation, Empty);
      remaining := remaining - {captureLocation};
      GridsEqual(r, Cleared(g, dead - remaining));
    }
    assert dead - remaining == dead;
  }

  /** Each location appears at most once among the neighbours. */
  predicate DistinctSome(nbs: seq<Option<Coord>>)
  {
    forall i, j :: 0 <= i < j < |nbs| && nbs[i].Some? ==> nbs[i] != nbs[j]
  }

  /** The specification after one more neighbour, in terms of the one before. */
  lemma CaptureStep(g1: Grid, nbs: seq<Option<Coord>>, i: int, opp: Piece)
    requires IsSquare(g1) && 0 <= i < |nbs|
    ensures CapturedStones(g1, nbs[..i + 1], opp) ==
              CapturedStones(g1, nbs[..i], opp) +
              (if IsCapturedGroup(g1, nbs[i], opp) then Group(g1, nbs[i].value) else {})
    ensures KoAfterCapture(g1, nbs[..i + 1], opp) ==
              if IsCapturedGroup(g1, nbs[i], opp) && |Group(g1, nbs[i].value)| == 1 then nbs[i]
              else KoAfterCapture(g1, nbs[..i], opp)
  {
    assert nbs[..i + 1][..i] == nbs[..i];
  }

  /** A neighbour holding an opponent stone on the partly cleared board: its
      group and whether that group has a liberty are as right after placement. */
  lemma OpponentNeighbour(g1: Grid, nbs: seq<Option<Coord>>, i: int, opp: Piece, q: Coord)
    requires IsSquare(g1) && OnBoard(|g1|, nbs) && 0 <= i < |nbs| && opp != Empty
    requires nbs[i] == Some(q)
    requires At(Cleared(g1, CapturedStones(g1, nbs[..i], opp)), q) == opp
    ensures At(g1, q) == opp
    ensures Group(Cleared(g1, CapturedStones(g1, nbs[..i], opp)), q) == Group(g1, q)
    ensures GroupHasLiberty(Cleared(g1, CapturedStones(g1, nbs[..i], opp)), Group(g1, q)) <==>
              GroupHasLiberty(g1, Group(g1, q))
    ensures q in Group(g1, q)
    ensures forall d :: d in Group(g1, q) ==> InBounds(|g1|, d)
  {
    var D := CapturedStones(g1, nbs[..i], opp);
    CapturedStonesFacts(g1, nbs[..i], opp);
    NotYetCaptured(g1, nbs[..i], opp, q);
    GroupUnaffectedByClearing(g1, D, q);
    ReachableSelf(g1, q);
    forall d | d in Group(g1, q) ensures InBounds(|g1|, d) {
      GroupMember(g1, q, d);
    }
  }

  /** A neighbour the loop passes over (off the board, or not an opponent
      stone any more) changes neither the captured stones nor the Ko point. */
  lemma SkippedNeighbour(g1: Grid, nbs: seq<Option<Coord>>, i: int, opp: Piece)
    requires IsSquare(g1) && OnBoard(|g1|, nbs) && DistinctSome(nbs) && 0 <= i < |nbs| && opp != Empty
    requires nbs[i].Some? ==> At(Cleared(g1, CapturedStones(g1, nbs[..i], opp)), nbs[i].value) != opp
    ensures CapturedStones(g1, nbs[..i + 1], opp) == CapturedStones(g1, nbs[..i], opp)
    ensures KoAfterCapture(g1, nbs[..i + 1], opp) == KoAfterCapture(g1, nbs[..i], opp)
  {
    var pre := nbs[..i];
    var D := CapturedStones(g1, pre, opp);
    CaptureStep(g1, nbs, i, opp);
    if nbs[i].Some? && nbs[i].value in D {
      assert nbs[i] !in pre;
      AlreadyCaptured(g1, pre, opp, nbs[i].value);
    }
  }

  /** An opponent neighbour whose group has no liberty: its group is added
      to the captured stones, disjointly, and a one-stone group sets Ko. */
  lemma CapturedNeighbour(g1: Grid, nbs: seq<Option<Coord>>, i: int, opp: Piece, q: Coord)
    requires IsSquare(g1) && OnBoard(|g1|, nbs) && 0 <= i < |nbs| && opp != Empty
    requires nbs[i] == Some(q) && At(g1, q) == opp && !GroupHasLiberty(g1, Group(g1, q))
    requires q !in CapturedStones(g1, nbs[..i], opp)
    ensures CapturedStones(g1, nbs[..i + 1], opp) == CapturedStones(g1, nbs[..i], opp) + Group(g1, q)
    ensures |CapturedStones(g1, nbs[..i + 1], opp)| == |CapturedStones(g1, nbs[..i], opp)| + |Group(g1, q)|
    ensures KoAfterCapture(g1, nbs[..i + 1], opp) ==
              if |Group(g1, q)| == 1 then Some(q) else KoAfterCapture(g1, nbs[..i], opp)
    ensures Cleared(Cleared(g1, CapturedStones(g1, nbs[..i], opp)), Group(g1, q)) ==
              Cleared(g1, CapturedStones(g1, nbs[..i + 1], opp))
  {
    CaptureStep(g1, nbs, i, opp);
    NotYetCaptured(g1, nbs[..i], opp, q);
    ClearedTwice(g1, CapturedStones(g1, nbs[..i], opp), Group(g1, q));
  }

  /** An opponent neighbour whose group has a liberty changes nothing. */
  lemma LiveNeighbour(g1: Grid, nbs: seq<Option<Coord>>, i: int, opp: Piece, q: Coord)
    requires IsSquare(g1) && 0 <= i < |nbs|
    requires nbs[i] == Some(q) && GroupHasLiberty(g1, Group(g1, q))
    ensures CapturedStones(g1, nbs[..i + 1], opp) == CapturedStones(g1, nbs[..i], opp)
    ensures KoAfterCapture(g1, nbs[..i + 1], opp) == KoAfterCapture(g1, nbs[..i], opp)
  {
    CaptureStep(g1, nbs, i, opp);
  }

  /** One pass of the capture loop of inputMove, for the neighbour
      adjacentLocation == nbs[i], on the board as the earlier passes left it. */
  method CaptureNeighbour(ghost g1: Grid, ghost nbs: seq<Option<Coord>>, i: int, adjacentLocation: Option<Coord>,
                          nextActivePlayer: Piece, board: Grid, ko: Option<Coord>, count: int)
    returns (newBoard: Grid, locationWithKo: Option<Coord>, numberPiecesCaptured: int)
    requires IsSquare(g1) && OnBoard(|g1|, nbs) && DistinctSome(nbs) && nextActivePlayer != Empty
    requires 0 <= i < |nbs| && adjacentLocation == nbs[i]
    requires board == Cleared(g1, CapturedStones(g1, nbs[..i], nextActivePlayer))
    requires ko == KoAfterCapture(g1, nbs[..i], nextActivePlayer)
    requires count == |CapturedStones(g1, nbs[..i], nextActivePlayer)|
    ensures newBoard == Cleared(g1, CapturedStones(g1, nbs[..i + 1], nextActivePlayer))
    ensures locationWithKo == KoAfterCapture(g1, nbs[..i + 1], nextActivePlayer)
    ensures numberPiecesCaptured == |CapturedStones(g1, nbs[..i + 1], nextActivePlayer)|
  {
    newBoard, locationWithKo, numberPiecesCaptured := board, ko, count;
    if adjacentLocation.Some? && At(board, adjacentLocation.value) == nextActivePlayer {
      var q := adjacentLocation.value;
      OpponentNeighbour(g1, nbs, i, nextActivePlayer, q);
      var found, dead := Liberties.HasLiberties(board, q);
      if !found {
        CapturedNeighbour(g1, nbs, i, nextActivePlayer, q);
        // one stone captured: it becomes the Ko point
        if |dead| == 1 {
          var k :| k in dead;
          SingletonSet(dead, k);
          locationWithKo := Some(k);
        }
        newBoard := RemoveStones(board, dead);
        numberPiecesCaptured := count + |dead|;
      } else {
        LiveNeighbour(g1, nbs, i, nextActivePlayer, q);
      }
    } else {
      SkippedNeighbour(g1, nbs, i, nextActivePlayer);
    }
  }

  /** inputMove: copy the board, place the piece (overwriting whatever is
      there), then for the neighbours above, below, left and right in turn:
      an opponent stone whose group has no liberty has its whole group
      emptied, and a group of one stone makes that location the Ko point. */
  method InputMove(s: GameState, row: int, col: int, piece: Piece) returns (t: GameState)
    requires Valid(s) && InBounds(s.boardSize, Coord(row, col))
    ensures Valid(t)
    ensures t == MoveResult(s, row, col, piece)
  {
    var nextActivePlayer := Opposite(s.activePlayer);
    var location := Coord(row, col);
    var newBoard := Place(s.board, location, piece);
    var locationWithKo: Option<Coord> := None;
    var numberPiecesCaptured := 0;
    ghost var g1 := newBoard;
    var nbs := Neighbours(s.boardSize, location);
    NeighboursExact(s.boardSize, location);
    ClearedNothing(g1);
    var i := 0;
    while i < 4
      invariant 0 <= i <= 4
      invariant newBoard == Cleared(g1, CapturedStones(g1, nbs[..i], nextActivePlayer))
      invariant locationWithKo == KoAfterCapture(g1, nbs[..i], nextActivePlayer)
      invariant numberPiecesCaptured == |CapturedStones(g1, nbs[..i], nextActivePlayer)|
    {
      newBoard, locationWithKo, numberPiecesCaptured :=
        CaptureNeighbour(g1, nbs, i, nbs[i], nextActivePlayer, newBoard, locationWithKo, numberPiecesCaptured);
      i := i + 1;
    }
    assert nbs[..4] == nbs;
    if numberPiecesCaptured == 1 {
      KoWhenOneStoneCaptured(g1, nbs, nextActivePlayer);
    }
    assert numberPiecesCaptured == 1 ==> locationWithKo.Some?;
    t := GameState(nextActivePlayer, s.boardSize, newBoard, locationWithKo);
  }

  /** The move passes every check: the right player, not the Ko point, and
      the placed stone's group has a liberty once captures are made. */
  ghost predicate MoveIsLegal(s: GameState, row: int, col: int, piece: Piece)
    requires Valid(s) && InBounds(s.boardSize, Coord(row, col))
  {
    piece == s.activePlayer && s.locationWithKo != Some(Coord(row, col)) &&
    GroupHasLiberty(MoveResult(s, row, col, piece).board, Group(MoveResult(s, row, col, piece).board, Coord(row, col)))
  }

  /** checkLegalAndInputMove: the preliminary check, then the move, then the
      self-capture test on the board after captures. Any failure returns the
      receiver unchanged. */
  method CheckLegalAndInputMove(s: GameState, row: int, col: int, piece: Piece)
    returns (res: IllegalMove, t: GameState)
    requires Valid(s) && InBounds(s.boardSize, Coord(row, col))
    ensures Valid(t)
    ensures res != NoIllegalMove ==> t == s
    ensures res == WrongPlayerToMove <==> piece != s.activePlayer
    ensures res == Ko <==> piece == s.activePlayer && s.locationWithKo == Some(Coord(row, col))
    ensures res == SelfCapture <==>
              piece == s.activePlayer && s.locationWithKo != Some(Coord(row, col)) &&
              !GroupHasLiberty(MoveResult(s, row, col, piece).board,
                               Group(MoveResult(s, row, col, piece).board, Coord(row, col)))
    ensures res == NoIllegalMove <==> MoveIsLegal(s, row, col, piece)
    ensures res == NoIllegalMove ==> t == MoveResult(s, row, col, piece)
  {
    var preliminaryLegality := CheckMoveIsLegalPreliminary(s, row, col, piece);
    if preliminaryLegality != NoIllegalMove {
      return preliminaryLegality, s;
    }
    var newGameState := InputMove(s, row, col, piece);
    PlacedStoneRemains(s, row, col, piece);
    var found, _ := Liberties.HasLiberties(newGameState.board, Coord(row, col));
    if !found {
      return SelfCapture, s;
    }
    return NoIllegalMove, newGameState;
  }

  // ---------------------------------------------------------------------
  // Properties of a move

  /** The stone played by the player to move is still there after captures. */
  lemma PlacedStoneRemains(s: GameState, row: int, col: int, piece: Piece)
    requires Valid(s) && InBounds(s.boardSize, Coord(row, col))
    requires piece == s.activePlayer
    ensures At(MoveResult(s, row, col, piece).board, Coord(row, col)) == piece
  {
    var g1 := Place(s.board, Coord(row, col), piece);
    var nbs := Neighbours(s.boardSize, Coord(row, col));
    NeighboursExact(s.boardSize, Coord(row, col));
    CapturedStonesFacts(g1, nbs, Opposite(s.activePlayer));
  }

  /** Capture: a location is emptied by a move exactly when it belongs to an
      opponent group, next to the placed stone, that has no liberty once the
      stone is placed; every other location keeps what it held after
      placement. */
  lemma {:induction false} CaptureRule(s: GameState, row: int, col: int, piece: Piece)
    requires Valid(s) && InBounds(s.boardSize, Coord(row, col))
    ensures var g1 := Place(s.board, Coord(row, col), piece);
            var opp := Opposite(s.activePlayer);
            var t := MoveResult(s, row, col, piece);
            forall p :: InBounds(s.boardSize, p) ==>
              At(t.board, p) ==
                if exists q :: Borders(g1, Coord(row, col), q, opp) && !GroupHasLiberty(g1, Group(g1, q)) && p in Group(g1, q)
                then Empty else At(g1, p)
  {
    var g1 := Place(s.board, Coord(row, col), piece);
    var opp := Opposite(s.activePlayer);
    var nbs := Neighbours(s.boardSize, Coord(row, col));
    NeighboursExact(s.boardSize, Coord(row, col));
    CapturedStonesFacts(g1, nbs, opp);
    forall p | InBounds(s.boardSize, p)
      ensures p in CapturedStones(g1, nbs, opp) <==>
              exists q :: Borders(g1, Coord(row, col), q, opp) && !GroupHasLiberty(g1, Group(g1, q)) && p in Group(g1, q)
    {
      if p in CapturedStones(g1, nbs, opp) {
        var j :| 0 <= j < |nbs| && IsCapturedGroup(g1, nbs[j], opp) && p in Group(g1, nbs[j].value);
        assert Borders(g1, Coord(row, col), nbs[j].value, opp);
      }
      if exists q :: Borders(g1, Coord(row, col), q, opp) && !GroupHasLiberty(g1, Group(g1, q)) && p in Group(g1, q) {
        var q :| Borders(g1, Coord(row, col), q, opp) && !GroupHasLiberty(g1, Group(g1, q)) && p in Group(g1, q);
        var j :| 0 <= j < 4 && nbs[j] == Some(q);
        assert IsCapturedGroup(g1, nbs[j], opp);
      }
    }
  }

  /** Ko after a move: when set, it is an emptied neighbour of the placed
      stone whose captured group was that one stone; it is unset exactly when
      no captured group had one stone; one stone captured in all sets it. */
  lemma KoRule(s: GameState, row: int, col: int, piece: Piece)
    requires Valid(s) && InBounds(s.boardSize, Coord(row, col))
    ensures var g1 := Place(s.board, Coord(row, col), piece);
            var opp := Opposite(s.activePlayer);
            var t := MoveResult(s, row, col, piece);
            var nbs := Neighbours(s.boardSize, Coord(row, col));
            && (t.locationWithKo.Some? ==>
                  var k := t.locationWithKo.value;
                  Borders(g1, Coord(row, col), k, opp) && Group(g1, k) == {k} &&
                  !GroupHasLiberty(g1, {k}) && At(t.board, k) == Empty)
            && (t.locationWithKo.None? <==>
                  forall q :: Borders(g1, Coord(row, col), q, opp) && !GroupHasLiberty(g1, Group(g1, q)) ==>
                    |Group(g1, q)| != 1)
            && (|CapturedStones(g1, nbs, opp)| == 1 ==> t.locationWithKo.Some?)
  {
    var g1 := Place(s.board, Coord(row, col), piece);
    var opp := Opposite(s.activePlayer);
    var nbs := Neighbours(s.boardSize, Coord(row, col));
    NeighboursExact(s.boardSize, Coord(row, col));
    KoAfterCaptureFacts(g1, nbs, opp);
    CapturedStonesFacts(g1, nbs, opp);
    var t := MoveResult(s, row, col, piece);
    if t.locationWithKo.Some? {
      var j :| 0 <= j < |nbs| && nbs[j] == KoAfterCapture(g1, nbs, opp) &&
               IsCapturedGroup(g1, nbs[j], opp) && Group(g1, nbs[j].value) == {nbs[j].value};
      ReachableSelf(g1, nbs[j].value);
    } else {
      forall q | Borders(g1, Coord(row, col), q, opp) && !GroupHasLiberty(g1, Group(g1, q))
        ensures |Group(g1, q)| != 1
      {
        var j :| 0 <= j < 4 && nbs[j] == Some(q);
      }
    }
    if t.locationWithKo.None? && !forall q :: Borders(g1, Coord(row, col), q, opp) && !GroupHasLiberty(g1, Group(g1, q)) ==> |Group(g1, q)| != 1 {
      assert false;
    }
    if |CapturedStones(g1, nbs, opp)| == 1 {
      KoWhenOneStoneCaptured(g1, nbs, opp);
    }
  }

  /** Ko enforcement: right after a move that set the Ko point, the player to
      move may not play there; after a pass instead, nothing forbids it. */
  lemma KoForbidsOnlyTheNextMove(t: GameState, k: Coord)
    requires Valid(t) && t.locationWithKo == Some(k) && InBounds(t.boardSize, k)
    ensures CheckMoveIsLegalPreliminary(t, k.row, k.col, t.activePlayer) == Ko
    ensures CheckMoveIsLegalPreliminary(PassTurn(t), k.row, k.col, PassTurn(t).activePlayer) == NoIllegalMove
  {
  }
}
