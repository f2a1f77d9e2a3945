/** GameState.hasLiberties: the recursive depth-first search over a group of
    stones that threads a shared visited set and stops at the first liberty. */
module Liberties {
  import opened Board
  import opened Groups

  /** hasLiberties(startLocation, visited). `root` is the location the whole
      search started from; every location visited so far lies in its group.
      Returns (true, {}) as soon as a liberty is seen; otherwise (false, v)
      where v extends visited with every location this call reached, and every
      location it added has only non-empty neighbours, its friendly ones in v. */
  method HasLibertiesFrom(g: Grid, start: Coord, visited: set<Coord>, ghost root: Coord)
    returns (found: bool, result: set<Coord>)
    requires IsSquare(g) && InBounds(|g|, start) && At(g, start) != Empty
    requires Reachable(g, root, start) && start !in visited
    requires visited <= Group(g, root)
    decreases Cells(|g|) - visited
    ensures found ==> result == {} && GroupHasLiberty(g, Group(g, root))
    ensures !found ==> visited + {start} <= result <= Group(g, root)
    ensures !found ==> forall p, q :: p in result - visited && InBounds(|g|, q) && Adjacent(p, q) ==>
                         At(g, q) != Empty && (At(g, q) == At(g, start) ==> q in result)
  {
    ReachableColour(g, root, start);
    var vis := visited + {start};
    var friendlyPlayer := At(g, start);
    var nbs := Neighbours(|g|, start);
    NeighboursExact(|g|, start);
    var i := 0;
    while i < 4
      invariant 0 <= i <= 4
      invariant visited + {start} <= vis <= Group(g, root)
      invariant forall p, q :: p in vis - visited - {start} && InBounds(|g|, q) && Adjacent(p, q) ==>
                  At(g, q) != Empty && (At(g, q) == friendlyPlayer ==> q in vis)
      invariant forall j :: 0 <= j < i && nbs[j].Some? ==>
                  At(g, nbs[j].value) != Empty && (At(g, nbs[j].value) == friendlyPlayer ==> nbs[j].value in vis)
    {
      if nbs[i].Some? && nbs[i].value !in vis {
        var l := nbs[i].value;
        if At(g, l) == Empty {
          // a liberty: the search ends here
          assert start in Group(g, root) && LibertyOf(g, start, l);
          return true, {};
        } else if At(g, l) == friendlyPlayer {
          // a friendly stone shares its liberties: search from it
          ReachableStep(g, root, start, l);
          assert Cells(|g|) - vis < Cells(|g|) - visited by {
            assert start in Cells(|g|) - visited;
          }
          var sub;
          found, sub := HasLibertiesFrom(g, l, vis, root);
          if found {
            return true, {};
          }
          vis := vis + sub;
        }
      }
      i := i + 1;
    }
    // base case: every neighbour is visited, an enemy stone or off the board
    forall q | InBounds(|g|, q) && Adjacent(start, q)
      ensures At(g, q) != Empty && (At(g, q) == friendlyPlayer ==> q in vis)
    {
      var j :| 0 <= j < 4 && nbs[j] == Some(q);
    }
    return false, vis;
  }

  /** hasLiberties(row, col) with a fresh visited set: (true, {}) exactly when
      the group of `start` has a liberty, and otherwise (false, that group). */
  method HasLiberties(g: Grid, start: Coord) returns (found: bool, dead: set<Coord>)
    requires IsSquare(g) && InBounds(|g|, start) && At(g, start) != Empty
    ensures found <==> GroupHasLiberty(g, Group(g, start))
    ensures dead == if found then {} else Group(g, start)
  {
    ReachableSelf(g, start);
    found, dead := HasLibertiesFrom(g, start, {}, start);
    if !found {
      GroupCharacterized(g, dead, start);
    }
  }
}
