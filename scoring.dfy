/** GameState.calculateAreaScore: area scoring. Every stone scores one for its
    owner; every empty location scores one for a player when the empty region
    it belongs to borders that player's stones and none of the other's. */
module Scoring {
  import opened Board
  import opened Groups
  import Engine

  /** The record threaded through the flood fill of an empty region: where
      this step starts, whether a PLAYER1 / PLAYER2 stone has been seen next
      to the region so far, and the empty locations visited so far. */
  datatype AreaScoreMultiComponent = AreaScoreMultiComponent(
    startLocation: Coord,
    seenPiece1: bool,
    seenPiece2: bool,
    visited: set<Coord>)

  /** Some earlier neighbour in nbs[..i] holds c. */
  ghost predicate SeenAmong(g: Grid, nbs: seq<Option<Coord>>, i: int, c: Piece)
    requires IsSquare(g) && 0 <= i <= |nbs|
    requires forall j :: 0 <= j < |nbs| && nbs[j].Some? ==> InBounds(|g|, nbs[j].value)
  {
    exists j :: 0 <= j < i && nbs[j].Some? && At(g, nbs[j].value) == c
  }

  lemma RegionBordersUnion(g: Grid, A: set<Coord>, B: set<Coord>, c: Piece)
    requires IsSquare(g)
    ensures RegionBorders(g, A + B, c) <==> RegionBorders(g, A, c) || RegionBorders(g, B, c)
  {
    if RegionBorders(g, A + B, c) {
      var p, q :| p in A + B && Borders(g, p, q, c);
      if p in A {
        assert RegionBorders(g, A, c);
      } else {
        assert RegionBorders(g, B, c);
      }
    }
    if RegionBorders(g, A, c) {
      var p, q :| p in A && Borders(g, p, q, c);
      assert p in A + B;
    }
    if RegionBorders(g, B, c) {
      var p, q :| p in B && Borders(g, p, q, c);
      assert p in A + B;
    }
  }

  /** The four neighbours of p show c exactly when p borders c. */
  lemma SeenAmongAll(g: Grid, p: Coord, c: Piece)
    requires IsSquare(g) && InBounds(|g|, p)
    ensures SeenAmong(g, Neighbours(|g|, p), 4, c) <==> RegionBorders(g, {p}, c)
  {
    var nbs := Neighbours(|g|, p);
    NeighboursExact(|g|, p);
    if SeenAmong(g, nbs, 4, c) {
      var j :| 0 <= j < 4 && nbs[j].Some? && At(g, nbs[j].value) == c;
      assert Borders(g, p, nbs[j].value, c);
    }
    if RegionBorders(g, {p}, c) {
      var p', q :| p' in {p} && Borders(g, p', q, c);
      var j :| 0 <= j < 4 && nbs[j] == Some(q);
    }
  }

  /** What the fill from c has established after examining the first i
      neighbours nbs[..i] of c.startLocation, with acc the running record. */
  ghost predicate FillInvariant(g: Grid, root: Coord, c: AreaScoreMultiComponent,
                                nbs: seq<Option<Coord>>, i: int, acc: AreaScoreMultiComponent)
    requires IsSquare(g) && 0 <= i <= |nbs|
    requires forall j :: 0 <= j < |nbs| && nbs[j].Some? ==> InBounds(|g|, nbs[j].value)
  {
    var others := acc.visited - c.visited - {c.startLocation};
    && c.visited + {c.startLocation} <= acc.visited <= Group(g, root)
    && (forall p, q :: p in others && Borders(g, p, q, Empty) ==> q in acc.visited)
    && (forall j :: 0 <= j < i && nbs[j].Some? && At(g, nbs[j].value) == Empty ==> nbs[j].value in acc.visited)
    && acc.seenPiece1 == (c.seenPiece1 || RegionBorders(g, others, Player1) || SeenAmong(g, nbs, i, Player1))
    && acc.seenPiece2 == (c.seenPiece2 || RegionBorders(g, others, Player2) || SeenAmong(g, nbs, i, Player2))
  }

  /** calculateSurroundedEmptyLocationScore: a depth-first flood fill from an
      empty location through empty neighbours, noting each PLAYER1 and PLAYER2
      stone next to a visited location. `root` is where the whole fill
      started. The visited set only grows; the locations added are a part of
      root's region closed under empty neighbours, and each flag is raised
      exactly when it was already raised or an added location borders that
      player's stone. */
  method CalculateSurroundedEmptyLocationScore(g: Grid, c: AreaScoreMultiComponent, ghost root: Coord)
    returns (r: AreaScoreMultiComponent)
    requires IsSquare(g) && InBounds(|g|, c.startLocation) && At(g, c.startLocation) == Empty
    requires Reachable(g, root, c.startLocation) && c.startLocation !in c.visited
    requires c.visited <= Group(g, root)
    decreases Cells(|g|) - c.visited, 1
    ensures r.startLocation == c.startLocation
    ensures c.visited + {c.startLocation} <= r.visited <= Group(g, root)
    ensures forall p, q :: p in r.visited - c.visited && Borders(g, p, q, Empty) ==> q in r.visited
    ensures r.seenPiece1 == (c.seenPiece1 || RegionBorders(g, r.visited - c.visited, Player1))
    ensures r.seenPiece2 == (c.seenPiece2 || RegionBorders(g, r.visited - c.visited, Player2))
  {
    var startLocation := c.startLocation;
    ReachableColour(g, root, startLocation);
    var acc := AreaScoreMultiComponent(startLocation, c.seenPiece1, c.seenPiece2, c.visited + {startLocation});
    var nbs := Neighbours(|g|, startLocation);
    NeighboursExact(|g|, startLocation);
    assert acc.visited - c.visited - {startLocation} == {};
    var i := 0;
    while i < 4
      invariant 0 <= i <= 4 && acc.startLocation == startLocation
      invariant FillInvariant(g, root, c, nbs, i, acc)
    {
      acc := VisitNeighbour(g, c, root, nbs, i, acc);
      i := i + 1;
    }
    ghost var others := acc.visited - c.visited - {startLocation};
    forall q | Borders(g, startLocation, q, Empty)
      ensures q in acc.visited
    {
      var j :| 0 <= j < 4 && nbs[j] == Some(q);
    }
    SeenAmongAll(g, startLocation, Player1);
    SeenAmongAll(g, startLocation, Player2);
    assert acc.visited - c.visited == others + {startLocation};
    RegionBordersUnion(g, others, {startLocation}, Player1);
    RegionBordersUnion(g, others, {startLocation}, Player2);
    r := acc;
  }

  lemma SeenAmongStep(g: Grid, nbs: seq<Option<Coord>>, i: int, c: Piece)
    requires IsSquare(g) && 0 <= i < |nbs|
    requires forall j :: 0 <= j < |nbs| && nbs[j].Some? ==> InBounds(|g|, nbs[j].value)
    ensures SeenAmong(g, nbs, i + 1, c) <==>
              SeenAmong(g, nbs, i, c) || (nbs[i].Some? && At(g, nbs[i].value) == c)
  {
  }

  /** A neighbour that is off the board, already visited or a stone. */
  lemma FillInvariantNoFill(g: Grid, root: Coord, c: AreaScoreMultiComponent,
                            nbs: seq<Option<Coord>>, i: int, acc: AreaScoreMultiComponent)
    requires IsSquare(g) && InBounds(|g|, root) && At(g, root) == Empty && 0 <= i < |nbs|
    requires forall j :: 0 <= j < |nbs| && nbs[j].Some? ==> InBounds(|g|, nbs[j].value)
    requires FillInvariant(g, root, c, nbs, i, acc)
    requires nbs[i].Some? ==> nbs[i].value in acc.visited || At(g, nbs[i].value) != Empty
    ensures nbs[i].Some? && nbs[i].value in acc.visited ==> FillInvariant(g, root, c, nbs, i + 1, acc)
    ensures nbs[i].None? ==> FillInvariant(g, root, c, nbs, i + 1, acc)
    ensures nbs[i].Some? && nbs[i].value !in acc.visited && At(g, nbs[i].value) == Player1 ==>
              FillInvariant(g, root, c, nbs, i + 1, acc.(seenPiece1 := true))
    ensures nbs[i].Some? && nbs[i].value !in acc.visited && At(g, nbs[i].value) == Player2 ==>
              FillInvariant(g, root, c, nbs, i + 1, acc.(seenPiece2 := true))
  {
    SeenAmongStep(g, nbs, i, Player1);
    SeenAmongStep(g, nbs, i, Player2);
    if nbs[i].Some? && nbs[i].value in acc.visited {
      GroupMember(g, root, nbs[i].value);
    }
  }

  /** An unvisited empty neighbour, after the recursive fill from it. */
  lemma FillInvariantAfterFill(g: Grid, root: Coord, c: AreaScoreMultiComponent,
                               nbs: seq<Option<Coord>>, i: int, acc: AreaScoreMultiComponent,
                               sub: AreaScoreMultiComponent)
    requires IsSquare(g) && 0 <= i < |nbs|
    requires forall j :: 0 <= j < |nbs| && nbs[j].Some? ==> InBounds(|g|, nbs[j].value)
    requires FillInvariant(g, root, c, nbs, i, acc)
    requires nbs[i].Some? && At(g, nbs[i].value) == Empty
    requires acc.visited + {nbs[i].value} <= sub.visited <= Group(g, root)
    requires forall p, q :: p in sub.visited - acc.visited && Borders(g, p, q, Empty) ==> q in sub.visited
    requires sub.seenPiece1 == (acc.seenPiece1 || RegionBorders(g, sub.visited - acc.visited, Player1))
    requires sub.seenPiece2 == (acc.seenPiece2 || RegionBorders(g, sub.visited - acc.visited, Player2))
    ensures FillInvariant(g, root, c, nbs, i + 1, sub.(startLocation := c.startLocation))
  {
    var others := acc.visited - c.visited - {c.startLocation};
    var added := sub.visited - acc.visited;
    SeenAmongStep(g, nbs, i, Player1);
    SeenAmongStep(g, nbs, i, Player2);
    RegionBordersUnion(g, others, added, Player1);
    RegionBordersUnion(g, others, added, Player2);
    assert sub.visited - c.visited - {c.startLocation} == others + added;
  }

  /** One pass of the fill's loop over the neighbour nbs[i] of c.startLocation:
      an unvisited empty neighbour is filled from recursively, a stone
      raises its player's flag. */
  method VisitNeighbour(g: Grid, c: AreaScoreMultiComponent, ghost root: Coord,
                        nbs: seq<Option<Coord>>, i: int, acc: AreaScoreMultiComponent)
    returns (acc': AreaScoreMultiComponent)
    requires IsSquare(g) && InBounds(|g|, c.startLocation) && At(g, c.startLocation) == Empty
    requires c.startLocation !in c.visited && Reachable(g, root, c.startLocation)
    requires nbs == Neighbours(|g|, c.startLocation) && 0 <= i < 4
    requires acc.startLocation == c.startLocation
    requires FillInvariant(g, root, c, nbs, i, acc)
    decreases Cells(|g|) - c.visited, 0
    ensures acc'.startLocation == c.startLocation
    ensures FillInvariant(g, root, c, nbs, i + 1, acc')
  {
    NeighboursExact(|g|, c.startLocation);
    ReachableColour(g, root, c.startLocation);
    acc' := acc;
    if nbs[i].Some? && nbs[i].value !in acc.visited && At(g, nbs[i].value) == Empty {
      // an empty neighbour: the region continues there
      var l := nbs[i].value;
      ReachableStep(g, root, c.startLocation, l);
      assert Cells(|g|) - acc.visited < Cells(|g|) - c.visited by {
        assert c.startLocation in Cells(|g|) - c.visited;
      }
      var lScore := CalculateSurroundedEmptyLocationScore(
        g, AreaScoreMultiComponent(l, acc.seenPiece1, acc.seenPiece2, acc.visited), root);
      FillInvariantAfterFill(g, root, c, nbs, i, acc, lScore);
      acc' := lScore.(startLocation := c.startLocation);
    } else {
      FillInvariantNoFill(g, root, c, nbs, i, acc);
      if nbs[i].Some? && nbs[i].value !in acc.visited {
        match At(g, nbs[i].value) {
        case Player1 =>
          acc' := acc.(seenPiece1 := true);
        case Player2 =>
          acc' := acc.(seenPiece2 := true);
        }
      }
    }
  }

  /** The fill from a fresh record: it visits exactly the empty region of
      `start`, and each flag says whether that region borders the player. */
  method FloodEmptyRegion(g: Grid, start: Coord) returns (r: AreaScoreMultiComponent)
    requires IsSquare(g) && InBounds(|g|, start) && At(g, start) == Empty
    ensures r.visited == Group(g, start)
    ensures r.seenPiece1 == RegionBorders(g, Group(g, start), Player1)
    ensures r.seenPiece2 == RegionBorders(g, Group(g, start), Player2)
  {
    ReachableSelf(g, start);
    r := CalculateSurroundedEmptyLocationScore(g, AreaScoreMultiComponent(start, false, false, {}), start);
    GroupCharacterized(g, r.visited, start);
  }

  /** Who a location counts for: a stone for its own player; an empty
      location for the one player whose stones its region borders, or for
      nobody (EMPTY). */
  ghost function Owner(g: Grid, p: Coord): Piece
    requires IsSquare(g) && InBounds(|g|, p)
  {
    if At(g, p) != Empty then At(g, p)
    else
      var b1 := RegionBorders(g, Group(g, p), Player1);
      var b2 := RegionBorders(g, Group(g, p), Player2);
      if b1 && !b2 then Player1 else if b2 && !b1 then Player2 else Empty
  }

  /** Owner at every location, as a grid of its own. */
  ghost function OwnerGrid(g: Grid): (o: Grid)
    requires IsSquare(g)
    ensures IsSquare(o) && |o| == |g|
    ensures forall p :: InBounds(|g|, p) ==> At(o, p) == Owner(g, p)
  {
    seq(|g|, row requires 0 <= row < |g| => seq(|g|, col requires 0 <= col < |g| => Owner(g, Coord(row, col))))
  }

  /** p comes before (row, col) in row-major order. */
  predicate Before(p: Coord, row: int, col: int)
  {
    p.row < row || (p.row == row && p.col < col)
  }

  /** The locations before (row, col) that hold c. */
  function HoldingBefore(o: Grid, c: Piece, row: int, col: int): set<Coord>
    requires IsSquare(o)
  {
    set p | p in Cells(|o|) && Before(p, row, col) && At(o, p) == c
  }

  /** The locations that count for player c. */
  ghost function Owned(g: Grid, c: Piece): (r: set<Coord>)
    requires IsSquare(g)
    ensures forall p :: p in r <==> InBounds(|g|, p) && Owner(g, p) == c
  {
    HoldingBefore(OwnerGrid(g), c, |g|, 0)
  }

  lemma HoldingBeforeStep(o: Grid, c: Piece, row: int, col: int)
    requires IsSquare(o) && InBounds(|o|, Coord(row, col))
    ensures |HoldingBefore(o, c, row, col + 1)| ==
              |HoldingBefore(o, c, row, col)| + (if At(o, Coord(row, col)) == c then 1 else 0)
  {
    var p := Coord(row, col);
    var A := HoldingBefore(o, c, row, col);
    var B := HoldingBefore(o, c, row, col + 1);
    var extra: set<Coord> := if At(o, p) == c then {p} else {};
    forall x ensures x in B <==> x in A + extra {
      if x == p {
        assert !Before(x, row, col) && Before(x, row, col + 1);
      } else {
        assert Before(x, row, col + 1) <==> Before(x, row, col);
      }
    }
    assert B == A + extra;
    assert p !in A;
  }

  lemma HoldingBeforeNextRow(o: Grid, c: Piece, row: int)
    requires IsSquare(o)
    ensures HoldingBefore(o, c, row, |o|) == HoldingBefore(o, c, row + 1, 0)
  {
  }

  /** One row of the scan in calculateAreaScore (the inner `for col` loop):
      a stone adds one to its player's score; an empty location runs its own
      flood fill and adds one to the player whose stones alone border its
      region. Afterwards the scores count the owned locations of every row
      up to this one. */
  method ScoreRow(g: Grid, ghost o: Grid, row: int, scores: (int, int), visited: set<Coord>)
    returns (playerOneScore: int, playerTwoScore: int, visitedEmptySquares: set<Coord>)
    requires IsSquare(g) && o == OwnerGrid(g) && 0 <= row < |g|
    requires scores.0 == |HoldingBefore(o, Player1, row, 0)|
    requires scores.1 == |HoldingBefore(o, Player2, row, 0)|
    ensures playerOneScore == |HoldingBefore(o, Player1, row + 1, 0)|
    ensures playerTwoScore == |HoldingBefore(o, Player2, row + 1, 0)|
  {
    var n := |g|;
    playerOneScore, playerTwoScore := scores.0, scores.1;
    visitedEmptySquares := visited;
    var col := 0;
    while col < n
      invariant 0 <= col <= n
      invariant playerOneScore == |HoldingBefore(o, Player1, row, col)|
      invariant playerTwoScore == |HoldingBefore(o, Player2, row, col)|
    {
      var currentLocation := Coord(row, col);
      HoldingBeforeStep(o, Player1, row, col);
      HoldingBeforeStep(o, Player2, row, col);
      match At(g, currentLocation) {
      case Player1 =>
        assert At(o, currentLocation) == Player1;
        playerOneScore := playerOneScore + 1;
      case Player2 =>
        assert At(o, currentLocation) == Player2;
        playerTwoScore := playerTwoScore + 1;
      case Empty =>
        var surroundedEmptyLocationScore := FloodEmptyRegion(g, currentLocation);
        var seenPiece1 := surroundedEmptyLocationScore.seenPiece1;
        var seenPiece2 := surroundedEmptyLocationScore.seenPiece2;
        assert At(o, currentLocation) ==
                 if seenPiece1 && !seenPiece2 then Player1 else if seenPiece2 && !seenPiece1 then Player2 else Empty;
        if seenPiece1 && !seenPiece2 {
          playerOneScore := playerOneScore + 1;
        } else if seenPiece2 && !seenPiece1 {
          playerTwoScore := playerTwoScore + 1;
        }
        visitedEmptySquares := visitedEmptySquares + surroundedEmptyLocationScore.visited;
      }
      col := col + 1;
    }
    HoldingBeforeNextRow(o, Player1, row);
    HoldingBeforeNextRow(o, Player2, row);
  }

  /** calculateAreaScore: a row-major scan of the board, row by row. The
      result is the number of locations each player owns. */
  method CalculateAreaScore(s: Engine.GameState) returns (playerOneScore: int, playerTwoScore: int)
    requires Engine.Valid(s)
    ensures playerOneScore == |Owned(s.board, Player1)|
    ensures playerTwoScore == |Owned(s.board, Player2)|
  {
    var g := s.board;
    var n := |g|;
    playerOneScore := 0;
    playerTwoScore := 0;
    // filled in but never read: every empty location runs its own fill
    var visitedEmptySquares: set<Coord> := {};
    ghost var o := OwnerGrid(g);
    assert HoldingBefore(o, Player1, 0, 0) == {} && HoldingBefore(o, Player2, 0, 0) == {};
    var row := 0;
    while row < n
      invariant 0 <= row <= n
      invariant playerOneScore == |HoldingBefore(o, Player1, row, 0)|
      invariant playerTwoScore == |HoldingBefore(o, Player2, row, 0)|
    {
      playerOneScore, playerTwoScore, visitedEmptySquares :=
        ScoreRow(g, o, row, (playerOneScore, playerTwoScore), visitedEmptySquares);
      row := row + 1;
    }
  }

  /** Running the scoring twice on one state gives the same pair. */
  method CalculateAreaScoreTwice(s: Engine.GameState) returns (first: (int, int), second: (int, int))
    requires Engine.Valid(s)
    ensures first == second
  {
    var p1, p2 := CalculateAreaScore(s);
    first := (p1, p2);
    p1, p2 := CalculateAreaScore(s);
    second := (p1, p2);
  }

  /** No location counts for both players, so the two scores together are at
      most boardSize * boardSize. */
  lemma ScoreBound(g: Grid)
    requires IsSquare(g)
    ensures Owned(g, Player1) !! Owned(g, Player2)
    ensures 0 <= |Owned(g, Player1)| + |Owned(g, Player2)| <= |g| * |g|
  {
    CellsCount(|g|);
    SubsetSize(Owned(g, Player1) + Owned(g, Player2), Cells(|g|));
  }

  lemma {:induction false} SubsetSize<T>(A: set<T>, B: set<T>)
    requires A <= B
    ensures |A| <= |B|
  {
    if A != {} {
      var x :| x in A;
      SubsetSize(A - {x}, B - {x});
    }
  }

  /** Every location of one empty region counts for the same player. */
  lemma RegionSharesOwner(g: Grid, p: Coord, q: Coord)
    requires IsSquare(g) && InBounds(|g|, p) && At(g, p) == Empty && q in Group(g, p)
    ensures InBounds(|g|, q) && Owner(g, q) == Owner(g, p)
  {
    GroupMember(g, p, q);
    GroupOfMember(g, p, q);
  }

  /** On a board with no stones nobody scores. */
  lemma EmptyBoardScoresNothing(g: Grid)
    requires IsSquare(g)
    requires forall p :: InBounds(|g|, p) ==> At(g, p) == Empty
    ensures Owned(g, Player1) == {} && Owned(g, Player2) == {}
  {
    forall p | InBounds(|g|, p)
      ensures Owner(g, p) == Empty
    {
      assert !RegionBorders(g, Group(g, p), Player1);
      assert !RegionBorders(g, Group(g, p), Player2);
    }
  }

  /** On a board with no empty location every location counts, for the
      player whose stone is on it. */
  lemma FullBoardScoresEverything(g: Grid)
    requires IsSquare(g)
    requires forall p :: InBounds(|g|, p) ==> At(g, p) != Empty
    ensures |Owned(g, Player1)| + |Owned(g, Player2)| == |g| * |g|
  {
    CellsCount(|g|);
    assert Owned(g, Player1) + Owned(g, Player2) == Cells(|g|);
  }
}
