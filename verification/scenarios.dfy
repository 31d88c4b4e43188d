/** Two worked grids for the C-space pass. A 3 x 3 grid with an obstacle in
    the centre pads only the top-left 2 x 2 block, because the bounds test
    leaves out the last row and column. A 4 x 4 grid with an obstacle in a
    corner shows that padding the padded array grows it again. */
module CSpaceScenarios {
  import opened OccupancyGrid
  import opened CSpace

  /** The indices of three cells are their three indices, in order. */
  lemma IndicesOfThree(g: Grid, a: Cell, b: Cell, c: Cell)
    ensures Indices(g, [a, b, c]) == [Index(g, a.0, a.1), Index(g, b.0, b.1), Index(g, c.0, c.1)]
  {
    var one: seq<Cell> := [a];
    assert one[..0] == [];
    assert Indices(g, one) == [Index(g, a.0, a.1)];
    assert [a, b][..1] == one;
    assert Indices(g, [a, b]) == Indices(g, one) + [Index(g, b.0, b.1)];
    assert [a, b, c][..2] == [a, b];
  }

  /** Free everywhere except the centre, which holds 100. */
  const Centre: Grid := Grid(3, 3, seq(9, k => if k == 4 then 100.0 else 0.0))

  /** The centre's walkable 8-neighbours are the three other cells of the
      top-left block; the rest are out of bounds. */
  lemma CentreNeighbours()
    ensures Valid(Centre) && ScanFits(Centre)
    ensures Neighbors8(Centre, 1, 1) == [(0, 1), (1, 0), (0, 0)]
    ensures Indices(Centre, Neighbors8(Centre, 1, 1)) == [3, 1, 0]
  {
    var g := Centre;
    assert IsCellWalkable(g, 0, 1) && IsCellWalkable(g, 1, 0) && IsCellWalkable(g, 0, 0);
    assert !InBounds(g, 2, 1) && !InBounds(g, 1, 2) && !InBounds(g, 2, 0) && !InBounds(g, 0, 2) && !InBounds(g, 2, 2);
    assert Neighbors4(g, 1, 1) == [(0, 1), (1, 0)];
    assert DiagonalNeighbors(g, 1, 1) == [(0, 0)];
    IndicesOfThree(g, (0, 1), (1, 0), (0, 0));
  }

  /** The centre is the only cell above the threshold. */
  lemma CentreSource(a: int, b: int)
    requires Valid(Centre) && ScanFits(Centre) && Scanned(Centre, a, b) && IsSource(Centre, a, b)
    ensures a == 1 && b == 1
  {
  }

  /** The centre and its three walkable neighbours are painted ... */
  lemma CentreMarkedHit(i: int)
    requires i == 0 || i == 1 || i == 3 || i == 4
    ensures Valid(Centre) && ScanFits(Centre) && Marked(Centre, i)
  {
    CentreNeighbours();
    assert Hits(Centre, 1, 1, i) && Earlier(1, 1, 3, 0);
  }

  /** ... and no other cell is. */
  lemma CentreMarkedMissed(i: int)
    requires i == 2 || 5 <= i < 9
    ensures Valid(Centre) && ScanFits(Centre) && !Marked(Centre, i)
  {
    CentreNeighbours();
    forall a, b | Scanned(Centre, a, b) ensures !Hits(Centre, a, b, i) {
      if IsSource(Centre, a, b) {
        CentreSource(a, b);
        assert Index(Centre, a, b) == 4 && Indices(Centre, Neighbors8(Centre, a, b)) == [3, 1, 0];
        Unpainted(i);
      }
    }
  }

  /** The unpainted indices are none of the painted ones. */
  lemma Unpainted(i: int)
    requires i == 2 || 5 <= i < 9
    ensures i != 4 && i !in [3, 1, 0]
  {
  }

  /** The padded 3 x 3 grid: four cells occupied, not nine. */
  lemma CentreObstacle()
    ensures Valid(Centre) && ScanFits(Centre)
    ensures Padded(Centre) == [100.0, 100.0, 0.0, 100.0, 100.0, 0.0, 0.0, 0.0, 0.0]
  {
    var expected := [100.0, 100.0, 0.0, 100.0, 100.0, 0.0, 0.0, 0.0, 0.0];
    forall i | 0 <= i < 9 ensures Padded(Centre)[i] == expected[i] {
      PaddedAt(Centre, i);
      if i == 0 || i == 1 || i == 3 || i == 4 {
        CentreMarkedHit(i);
      } else {
        CentreMarkedMissed(i);
      }
    }
  }

  /** Free everywhere except the corner (0, 0), which holds 100. */
  const Corner: Grid := Grid(4, 4, [100.0] + seq(15, k => 0.0))

  /** The corner's walkable 8-neighbours. */
  lemma CornerNeighbours()
    ensures Valid(Corner) && ScanFits(Corner)
    ensures Neighbors8(Corner, 0, 0) == [(1, 0), (0, 1), (1, 1)]
    ensures Indices(Corner, Neighbors8(Corner, 0, 0)) == [1, 4, 5]
  {
    var g := Corner;
    assert IsCellWalkable(g, 1, 0) && IsCellWalkable(g, 0, 1) && IsCellWalkable(g, 1, 1);
    assert Neighbors4(g, 0, 0) == [(1, 0), (0, 1)];
    assert DiagonalNeighbors(g, 0, 0) == [(1, 1)];
    IndicesOfThree(g, (1, 0), (0, 1), (1, 1));
  }

  /** The corner is the only cell above the threshold. */
  lemma CornerSource(a: int, b: int)
    requires Valid(Corner) && ScanFits(Corner) && Scanned(Corner, a, b) && IsSource(Corner, a, b)
    ensures a == 0 && b == 0
  {
  }

  /** Index 10, cell (2, 2), is none of the painted ones. */
  lemma NotNearCorner(i: int)
    requires i == 10
    ensures i != 0 && i !in [1, 4, 5]
  {
  }

  /** One pass leaves cell (2, 2) free ... */
  lemma CornerPadded()
    ensures Valid(Corner) && ScanFits(Corner)
    ensures |Padded(Corner)| == 16 && Padded(Corner)[Index(Corner, 1, 1)] == Occupied
    ensures Padded(Corner)[Index(Corner, 2, 2)] == 0.0
  {
    CornerNeighbours();
    PaddedCoversSources(Corner, 0, 0);
    var i := Index(Corner, 2, 2);
    forall a, b | Scanned(Corner, a, b) ensures !Hits(Corner, a, b, i) {
      if IsSource(Corner, a, b) {
        CornerSource(a, b);
        assert Index(Corner, a, b) == 0 && Indices(Corner, Neighbors8(Corner, a, b)) == [1, 4, 5];
        NotNearCorner(i);
      }
    }
    PaddedAt(Corner, i);
  }

  /** ... and a second pass over the result paints it: padding is not
      idempotent. */
  lemma RepaddingGrows()
    ensures Valid(Corner) && ScanFits(Corner)
    ensures var once := Padded(Corner);
            |once| == 16 && Padded(Grid(4, 4, once)) != once
  {
    CornerPadded();
    var once := Padded(Corner);
    var g := Grid(4, 4, once);
    assert Scanned(g, 1, 1) && IsSource(g, 1, 1);
    assert IsCellWalkable(g, 2, 2);
    Neighbors8Exactly(g, 1, 1);
    assert (2, 2) in Neighbors8(g, 1, 1);
    PaddedCoversSources(g, 1, 1);
    assert Padded(g)[Index(g, 2, 2)] == Occupied;
  }
}
