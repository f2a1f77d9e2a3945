/** Groups and liberties: the same-colour connected component of a location
    (what the liberty search and the empty-region flood fill explore), stated
    by paths, with the facts the searches and the capture loop rely on. */
module Groups {
  import opened Board

  /** A non-empty walk of orthogonal steps over locations holding c. */
  ghost predicate IsPath(g: Grid, path: seq<Coord>, c: Piece)
    requires IsSquare(g)
  {
    |path| > 0 &&
    (forall i :: 0 <= i < |path| ==> InBounds(|g|, path[i]) && At(g, path[i]) == c) &&
    (forall i :: 0 <= i < |path| - 1 ==> Adjacent(path[i], path[i + 1]))
  }

  /** b can be reached from a over locations of a's colour. */
  ghost predicate Reachable(g: Grid, a: Coord, b: Coord)
    requires IsSquare(g)
  {
    InBounds(|g|, a) &&
    exists path :: IsPath(g, path, At(g, a)) && path[0] == a && path[|path| - 1] == b
  }

  /** The maximal same-colour connected set containing a (a group of stones,
      or an empty region when a is EMPTY). */
  ghost function Group(g: Grid, a: Coord): set<Coord>
    requires IsSquare(g)
  {
    set p | p in Cells(|g|) && Reachable(g, a, p)
  }

  /** q is a liberty of p: an empty on-board orthogonal neighbour. */
  ghost predicate LibertyOf(g: Grid, p: Coord, q: Coord)
    requires IsSquare(g)
  {
    InBounds(|g|, q) && Adjacent(p, q) && At(g, q) == Empty
  }

  ghost predicate GroupHasLiberty(g: Grid, S: set<Coord>)
    requires IsSquare(g)
  {
    exists p, q :: p in S && LibertyOf(g, p, q)
  }

  /** q is an on-board orthogonal neighbour of p holding c. */
  ghost predicate Borders(g: Grid, p: Coord, q: Coord, c: Piece)
    requires IsSquare(g)
  {
    InBounds(|g|, q) && Adjacent(p, q) && At(g, q) == c
  }

  /** Some location of S borders a location holding c. */
  ghost predicate RegionBorders(g: Grid, S: set<Coord>, c: Piece)
    requires IsSquare(g)
  {
    exists p, q :: p in S && Borders(g, p, q, c)
  }

  /** Every c-coloured neighbour of a location of S is in S. */
  ghost predicate Closed(g: Grid, S: set<Coord>, c: Piece)
    requires IsSquare(g)
  {
    forall p, q :: p in S && Borders(g, p, q, c) ==> q in S
  }

  lemma ReachableSelf(g: Grid, a: Coord)
    requires IsSquare(g) && InBounds(|g|, a)
    ensures Reachable(g, a, a) && a in Group(g, a)
  {
    assert IsPath(g, [a], At(g, a));
  }

  lemma ReachableColour(g: Grid, a: Coord, b: Coord)
    requires IsSquare(g) && Reachable(g, a, b)
    ensures InBounds(|g|, b) && At(g, b) == At(g, a)
  {
    var path :| IsPath(g, path, At(g, a)) && path[0] == a && path[|path| - 1] == b;
    assert InBounds(|g|, path[|path| - 1]);
  }

  lemma GroupMember(g: Grid, a: Coord, b: Coord)
    requires IsSquare(g) && b in Group(g, a)
    ensures InBounds(|g|, a) && InBounds(|g|, b) && At(g, b) == At(g, a) && Reachable(g, a, b)
  {
    ReachableColour(g, a, b);
  }

  /** One more step of a's colour stays in a's group. */
  lemma ReachableStep(g: Grid, a: Coord, p: Coord, q: Coord)
    requires IsSquare(g) && Reachable(g, a, p)
    requires Borders(g, p, q, At(g, a))
    ensures Reachable(g, a, q) && q in Group(g, a)
  {
    var path :| IsPath(g, path, At(g, a)) && path[0] == a && path[|path| - 1] == p;
    var path' := path + [q];
    assert IsPath(g, path', At(g, a));
  }

  lemma ReachableSymmetric(g: Grid, a: Coord, b: Coord)
    requires IsSquare(g) && Reachable(g, a, b)
    ensures Reachable(g, b, a)
  {
    ReachableColour(g, a, b);
    var path :| IsPath(g, path, At(g, a)) && path[0] == a && path[|path| - 1] == b;
    var n := |path|;
    var rev := seq(n, i requires 0 <= i < n => path[n - 1 - i]);
    forall i | 0 <= i < n - 1 ensures Adjacent(rev[i], rev[i + 1]) {
      var k := n - 2 - i;
      assert Adjacent(path[k], path[k + 1]);
    }
    forall i | 0 <= i < n ensures InBounds(|g|, rev[i]) && At(g, rev[i]) == At(g, b) {
      assert rev[i] == path[n - 1 - i];
    }
    assert IsPath(g, rev, At(g, b)) && rev[0] == b && rev[n - 1] == a;
  }

  lemma ReachableTransitive(g: Grid, a: Coord, b: Coord, c: Coord)
    requires IsSquare(g) && Reachable(g, a, b) && Reachable(g, b, c)
    ensures Reachable(g, a, c)
  {
    ReachableColour(g, a, b);
    var p1 :| IsPath(g, p1, At(g, a)) && p1[0] == a && p1[|p1| - 1] == b;
    var p2 :| IsPath(g, p2, At(g, b)) && p2[0] == b && p2[|p2| - 1] == c;
    var path := p1 + p2[1..];
    assert forall i :: |p1| <= i < |path| ==> path[i] == p2[i - |p1| + 1];
    assert IsPath(g, path, At(g, a));
  }

  /** Every member of a group has that same group. */
  lemma {:induction false} GroupOfMember(g: Grid, a: Coord, b: Coord)
    requires IsSquare(g) && b in Group(g, a)
    ensures Group(g, b) == Group(g, a)
  {
    GroupMember(g, a, b);
    ReachableSymmetric(g, a, b);
    forall p | p in Group(g, b) ensures p in Group(g, a) {
      ReachableTransitive(g, a, b, p);
    }
    forall p | p in Group(g, a) ensures p in Group(g, b) {
      ReachableTransitive(g, b, a, p);
    }
  }

  /** A closed set that holds a holds a's whole group. */
  lemma {:induction false} ClosedSetContainsGroup(g: Grid, S: set<Coord>, a: Coord)
    requires IsSquare(g) && a in S && InBounds(|g|, a) && Closed(g, S, At(g, a))
    ensures Group(g, a) <= S
  {
    forall b | b in Group(g, a) ensures b in S {
      var path :| IsPath(g, path, At(g, a)) && path[0] == a && path[|path| - 1] == b;
      var i := 0;
      while i < |path| - 1
        invariant 0 <= i < |path|
        invariant path[i] in S
      {
        assert Borders(g, path[i], path[i + 1], At(g, a));
        i := i + 1;
      }
    }
  }

  /** A set that holds a, is closed for a's colour and holds only locations
      reachable from a is exactly a's group. */
  lemma GroupCharacterized(g: Grid, S: set<Coord>, a: Coord)
    requires IsSquare(g) && a in S && InBounds(|g|, a) && Closed(g, S, At(g, a))
    requires S <= Group(g, a)
    ensures S == Group(g, a)
  {
    ClosedSetContainsGroup(g, S, a);
  }

  /** A path in the cleared grid avoids the cleared locations, so it is a
      path in the original grid. */
  lemma ClearedGroupWithin(g: Grid, D: set<Coord>, q: Coord)
    requires IsSquare(g) && InBounds(|g|, q) && At(g, q) != Empty
    requires forall d :: d in D ==> InBounds(|g|, d) && At(g, d) == At(g, q)
    requires Group(g, q) !! D
    ensures Group(Cleared(g, D), q) <= Group(g, q)
  {
    var h := Cleared(g, D);
    var c := At(g, q);
    ReachableSelf(g, q);
    assert At(h, q) == c;
    forall b | b in Group(h, q) ensures b in Group(g, q) {
      var path :| IsPath(h, path, c) && path[0] == q && path[|path| - 1] == b;
      assert forall i :: 0 <= i < |path| ==> path[i] !in D;
      assert IsPath(g, path, c);
    }
  }

  /** A path of the group in the original grid never meets a cleared
      location, so it survives the clearing. */
  lemma GroupWithinCleared(g: Grid, D: set<Coord>, q: Coord)
    requires IsSquare(g) && InBounds(|g|, q) && At(g, q) != Empty
    requires Group(g, q) !! D
    ensures Group(g, q) <= Group(Cleared(g, D), q)
  {
    var h := Cleared(g, D);
    var c := At(g, q);
    ReachableSelf(g, q);
    assert At(h, q) == c;
    forall b | b in Group(g, q) ensures b in Group(h, q) {
      var path :| IsPath(g, path, c) && path[0] == q && path[|path| - 1] == b;
      forall i | 0 <= i < |path| ensures path[i] !in D {
        assert IsPath(g, path[..i + 1], c);
        assert path[i] in Group(g, q);
      }
      assert IsPath(h, path, c);
    }
  }

  /** A liberty of the group stays a liberty once other locations are
      emptied. */
  lemma LibertyKeptByClearing(g: Grid, D: set<Coord>, q: Coord)
    requires IsSquare(g)
    ensures GroupHasLiberty(g, Group(g, q)) ==> GroupHasLiberty(Cleared(g, D), Group(g, q))
  {
    if GroupHasLiberty(g, Group(g, q)) {
      var p, r :| p in Group(g, q) && LibertyOf(g, p, r);
      assert LibertyOf(Cleared(g, D), p, r);
    }
  }

  /** Emptying stones of the group's colour that lie outside the group gives
      it no new liberty: such a stone next to the group would belong to it. */
  lemma NoLibertyGainedByClearing(g: Grid, D: set<Coord>, q: Coord)
    requires IsSquare(g) && InBounds(|g|, q)
    requires forall d :: d in D ==> InBounds(|g|, d) && At(g, d) == At(g, q)
    requires Group(g, q) !! D
    ensures GroupHasLiberty(Cleared(g, D), Group(g, q)) ==> GroupHasLiberty(g, Group(g, q))
  {
    if GroupHasLiberty(Cleared(g, D), Group(g, q)) {
      var p, r :| p in Group(g, q) && LibertyOf(Cleared(g, D), p, r);
      if r in D {
        GroupMember(g, q, p);
        ReachableStep(g, q, p, r);
        assert false;
      }
      assert LibertyOf(g, p, r);
    }
  }

  /** Emptying locations of q's colour that lie outside q's group changes
      neither q's group nor whether it has a liberty: no such location can
      touch the group, or it would belong to it. */
  lemma GroupUnaffectedByClearing(g: Grid, D: set<Coord>, q: Coord)
    requires IsSquare(g) && InBounds(|g|, q) && At(g, q) != Empty
    requires forall d :: d in D ==> InBounds(|g|, d) && At(g, d) == At(g, q)
    requires Group(g, q) !! D
    ensures Group(Cleared(g, D), q) == Group(g, q)
    ensures GroupHasLiberty(Cleared(g, D), Group(g, q)) <==> GroupHasLiberty(g, Group(g, q))
  {
    ClearedGroupWithin(g, D, q);
    GroupWithinCleared(g, D, q);
    LibertyKeptByClearing(g, D, q);
    NoLibertyGainedByClearing(g, D, q);
  }

  lemma SingletonSet<T>(S: set<T>, x: T)
    requires x in S && |S| == 1
    ensures S == {x}
  {
    assert |S - {x}| == 0;
  }
}
