/** The board of a game of Go: pieces, coordinates, the square grid and the
    four edge-aware neighbour getters of GameState. */
module Board {

  datatype Option<T> = None | Some(value: T)

  /** What a board location holds (enum Piece: PLAYER1, PLAYER2, EMPTY). */
  datatype Piece = Player1 | Player2 | Empty

  /** A (row, column) coordinate, 0-based. */
  datatype Coord = Coord(row: int, col: int)

  /** The board: row-major, `board[row][col]`. A location's own coordinate is
      its position in the grid. */
  type Grid = seq<seq<Piece>>

  /** getOppositePiece: swaps the two players and keeps EMPTY. */
  function Opposite(p: Piece): (r: Piece)
    ensures r == Empty <==> p == Empty
    ensures p != Empty ==> r != p
  {
    match p
    case Player1 => Player2
    case Player2 => Player1
    case Empty => Empty
  }

  lemma OppositeIsInvolution(p: Piece)
    ensures Opposite(Opposite(p)) == p
  {
  }

  predicate IsSquare(g: Grid)
  {
    forall r :: 0 <= r < |g| ==> |g[r]| == |g|
  }

  predicate InBounds(n: int, p: Coord)
  {
    0 <= p.row < n && 0 <= p.col < n
  }

  function At(g: Grid, p: Coord): Piece
    requires IsSquare(g) && InBounds(|g|, p)
  {
    g[p.row][p.col]
  }

  /** Orthogonal adjacency. */
  predicate Adjacent(p: Coord, q: Coord)
  {
    (p.row == q.row && (p.col - q.col == 1 || q.col - p.col == 1)) ||
    (p.col == q.col && (p.row - q.row == 1 || q.row - p.row == 1))
  }

  /** The set of all coordinates of an n x n board. */
  function Cells(n: int): (r: set<Coord>)
    ensures forall p :: p in r <==> InBounds(n, p)
  {
    set row, col | 0 <= row < n && 0 <= col < n :: Coord(row, col)
  }

  /** The first m locations of one row, and the first k rows of width n. */
  function RowPrefix(row: int, m: int): (r: set<Coord>)
    ensures forall p :: p in r <==> p.row == row && 0 <= p.col < m
  {
    set col | 0 <= col < m :: Coord(row, col)
  }

  function RowsPrefix(k: int, n: int): (r: set<Coord>)
    ensures forall p :: p in r <==> 0 <= p.row < k && 0 <= p.col < n
  {
    set row, col | 0 <= row < k && 0 <= col < n :: Coord(row, col)
  }

  lemma {:induction false} RowSize(row: int, m: int)
    requires m >= 0
    ensures |RowPrefix(row, m)| == m
  {
    if m > 0 {
      RowSize(row, m - 1);
      assert RowPrefix(row, m) == RowPrefix(row, m - 1) + {Coord(row, m - 1)};
    }
  }

  /** One more row adds n locations. */
  lemma RowsStep(k: int, n: int)
    requires 0 < k && 0 <= n
    ensures |RowsPrefix(k, n)| == |RowsPrefix(k - 1, n)| + n
  {
    RowSize(k - 1, n);
    assert RowsPrefix(k, n) == RowsPrefix(k - 1, n) + RowPrefix(k - 1, n);
    assert RowsPrefix(k - 1, n) * RowPrefix(k - 1, n) == {};
  }

  lemma {:induction false} RowsSize(k: int, n: int)
    requires 0 <= k && 0 <= n
    ensures |RowsPrefix(k, n)| == k * n
  {
    if k > 0 {
      RowsSize(k - 1, n);
      RowsStep(k, n);
      assert (k - 1) * n + n == k * n;
    }
  }

  /** An n x n board has n * n locations. */
  lemma CellsCount(n: int)
    requires n >= 0
    ensures |Cells(n)| == n * n
  {
    RowsSize(n, n);
    assert Cells(n) == RowsPrefix(n, n);
  }

  /** getLocationAbove */
  function Above(n: int, p: Coord): (r: Option<Coord>)
    requires InBounds(n, p)
    ensures r.None? <==> p.row == 0
    ensures r.Some? ==> InBounds(n, r.value) && Adjacent(p, r.value) && r.value.row < p.row
  {
    if p.row <= 0 then None else Some(Coord(p.row - 1, p.col))
  }

  /** getLocationBelow */
  function Below(n: int, p: Coord): (r: Option<Coord>)
    requires InBounds(n, p)
    ensures r.None? <==> p.row == n - 1
    ensures r.Some? ==> InBounds(n, r.value) && Adjacent(p, r.value) && r.value.row > p.row
  {
    if p.row >= n - 1 then None else Some(Coord(p.row + 1, p.col))
  }

  /** getLocationLeft */
  function Left(n: int, p: Coord): (r: Option<Coord>)
    requires InBounds(n, p)
    ensures r.None? <==> p.col == 0
    ensures r.Some? ==> InBounds(n, r.value) && Adjacent(p, r.value) && r.value.col < p.col
  {
    if p.col <= 0 then None else Some(Coord(p.row, p.col - 1))
  }

  /** getLocationRight */
  function Right(n: int, p: Coord): (r: Option<Coord>)
    requires InBounds(n, p)
    ensures r.None? <==> p.col == n - 1
    ensures r.Some? ==> InBounds(n, r.value) && Adjacent(p, r.value) && r.value.col > p.col
  {
    if p.col >= n - 1 then None else Some(Coord(p.row, p.col + 1))
  }

  /** The list every search iterates over: above, below, left, right. */
  function Neighbours(n: int, p: Coord): (r: seq<Option<Coord>>)
    requires InBounds(n, p)
    ensures |r| == 4
  {
    [Above(n, p), Below(n, p), Left(n, p), Right(n, p)]
  }

  /** The four getters together list exactly the on-board orthogonal
      neighbours of p, each once. */
  lemma NeighboursExact(n: int, p: Coord)
    requires InBounds(n, p)
    ensures forall i :: 0 <= i < 4 && Neighbours(n, p)[i].Some? ==>
              InBounds(n, Neighbours(n, p)[i].value) && Adjacent(p, Neighbours(n, p)[i].value)
    ensures forall q :: InBounds(n, q) && Adjacent(p, q) ==>
              exists i :: 0 <= i < 4 && Neighbours(n, p)[i] == Some(q)
    ensures forall i, j :: 0 <= i < j < 4 && Neighbours(n, p)[i].Some? ==>
              Neighbours(n, p)[i] != Neighbours(n, p)[j]
  {
    var nbs := Neighbours(n, p);
    forall q | InBounds(n, q) && Adjacent(p, q)
      ensures exists i :: 0 <= i < 4 && nbs[i] == Some(q)
    {
      if q.row < p.row {
        assert nbs[0] == Some(q);
      } else if q.row > p.row {
        assert nbs[1] == Some(q);
      } else if q.col < p.col {
        assert nbs[2] == Some(q);
      } else {
        assert nbs[3] == Some(q);
      }
    }
  }

  /** The grid after one location is overwritten (no occupancy check). */
  function Place(g: Grid, p: Coord, piece: Piece): (r: Grid)
    requires IsSquare(g) && InBounds(|g|, p)
    ensures IsSquare(r) && |r| == |g|
    ensures At(r, p) == piece
    ensures forall q :: InBounds(|g|, q) && q != p ==> At(r, q) == At(g, q)
  {
    g[p.row := g[p.row][p.col := piece]]
  }

  /** The grid after every location of D is set to EMPTY. */
  function Cleared(g: Grid, D: set<Coord>): (r: Grid)
    requires IsSquare(g)
    ensures IsSquare(r) && |r| == |g|
    ensures forall p :: InBounds(|g|, p) ==> At(r, p) == if p in D then Empty else At(g, p)
  {
    seq(|g|, row requires 0 <= row < |g| =>
      seq(|g|, col requires 0 <= col < |g| =>
        if Coord(row, col) in D then Empty else g[row][col]))
  }

  /** Two square grids of one size that agree at every location are equal. */
  lemma GridsEqual(g: Grid, h: Grid)
    requires IsSquare(g) && IsSquare(h) && |g| == |h|
    requires forall p :: InBounds(|g|, p) ==> At(g, p) == At(h, p)
    ensures g == h
  {
    forall row | 0 <= row < |g|
      ensures g[row] == h[row]
    {
      forall col | 0 <= col < |g|
        ensures g[row][col] == h[row][col]
      {
        assert At(g, Coord(row, col)) == At(h, Coord(row, col));
      }
    }
  }

  /** Clearing twice is clearing the union once. */
  lemma ClearedTwice(g: Grid, A: set<Coord>, B: set<Coord>)
    requires IsSquare(g)
    ensures Cleared(Cleared(g, A), B) == Cleared(g, A + B)
  {
    GridsEqual(Cleared(Cleared(g, A), B), Cleared(g, A + B));
  }

  lemma ClearedNothing(g: Grid)
    requires IsSquare(g)
    ensures Cleared(g, {}) == g
  {
    GridsEqual(Cleared(g, {}), g);
  }
}
