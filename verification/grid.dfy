/** The occupancy-grid map of lab 4: a flat row-major array of cell values
    with its width and height, and the queries the map answers about it
    (clamping, bounds, indexing, cell classification, walkable neighbours). */
module OccupancyGrid {

  /** A cell coordinate (x, y): x is the column, y the row. */
  type Cell = (int, int)

  /** The map snapshot: dimensions in cells and the row-major cell values.
      Values are exact reals, so the thresholds below compare as written. */
  datatype Grid = Grid(width: nat, height: nat, data: seq<real>)

  /** The exceptions the map raises: an out-of-bounds cell access
      (IndexError) and a map service that answered nothing (TypeError). */
  datatype MapError = IndexError | TypeError

  datatype Result<T> = Ok(value: T) | Err(error: MapError)

  /** Walkable cells hold a value below this (probability scale 0..1). */
  const FreeThreshold: real := 0.196
  /** Wall cells hold a value above this. */
  const WallThreshold: real := 0.55
  /** Unknown cells hold exactly this value. */
  const UnknownValue: real := 0.5

  /** The array holds exactly one value per cell. */
  predicate Valid(g: Grid)
  {
    |g.data| == g.width * g.height
  }

  function Min(a: int, b: int): int { if a < b then a else b }
  function Max(a: int, b: int): int { if a < b then b else a }
  function Abs(a: int): nat { if a < 0 then -a else a }

  /** Manhattan (4-connected) and Chebyshev (8-connected) distances. */
  function Manhattan(c: Cell, d: Cell): nat { Abs(c.0 - d.0) + Abs(c.1 - d.1) }
  function Chebyshev(c: Cell, d: Cell): nat { Max(Abs(c.0 - d.0), Abs(c.1 - d.1)) }

  /** Clamps a coordinate pair into the grid (force_inbound). */
  function ForceInbound(g: Grid, x: int, y: int): (c: Cell)
    ensures 0 <= c.0 && 0 <= c.1
    ensures g.width >= 1 ==> c.0 <= g.width - 1
    ensures g.height >= 1 ==> c.1 <= g.height - 1
    ensures 0 <= x <= g.width - 1 ==> c.0 == x
    ensures 0 <= y <= g.height - 1 ==> c.1 == y
    ensures x < 0 ==> c.0 == 0
    ensures y < 0 ==> c.1 == 0
    ensures g.width >= 1 && x > g.width - 1 ==> c.0 == g.width - 1
    ensures g.height >= 1 && y > g.height - 1 ==> c.1 == g.height - 1
  {
    (Max(0, Min(x, g.width - 1)), Max(0, Min(y, g.height - 1)))
  }

  /** Clamping twice is clamping once. */
  lemma ForceInboundIdempotent(g: Grid, x: int, y: int)
    ensures var c := ForceInbound(g, x, y); ForceInbound(g, c.0, c.1) == c
  {
  }

  /** is_cell_in_bounds: note the strict bounds width-1 and height-1, which
      leave the last column and the last row out. */
  predicate InBounds(g: Grid, x: int, y: int): (r: bool)
    ensures r ==> 0 <= x < g.width && 0 <= y < g.height
    ensures r ==> x != g.width - 1 && y != g.height - 1
  {
    0 <= x < g.width - 1 && 0 <= y < g.height - 1
  }

  /** grid_to_index: row-major position of (x, y); a cell of the grid has an
      index inside the array. */
  function Index(g: Grid, x: int, y: int): (i: int)
    ensures 0 <= x < g.width && 0 <= y < g.height ==> 0 <= i < g.width * g.height
  {
    RowMajorBound(g.width, g.height, x, y);
    y * g.width + x
  }

  lemma RowMajorBound(w: nat, h: nat, x: int, y: int)
    ensures 0 <= x < w && 0 <= y < h ==> 0 <= y * w + x < w * h
  {
    if 0 <= x < w && 0 <= y < h {
      MulMonotone(y, h - 1, w);
      assert (h - 1) * w + w == h * w;
    }
  }

  /** No cell of the last column or the last row is ever in bounds, and a
      cell in bounds has its index inside the array. */
  lemma InBoundsIndex(g: Grid, x: int, y: int)
    ensures InBounds(g, x, y) ==> 0 <= Index(g, x, y) < g.width * g.height
    ensures !InBounds(g, g.width - 1, y) && !InBounds(g, x, g.height - 1)
  {
  }

  lemma MulMonotone(a: int, b: int, w: nat)
    requires a <= b
    ensures a * w <= b * w
  {
    assert b * w - a * w == (b - a) * w;
  }

  /** Distinct columns below the width give distinct indices. */
  lemma IndexInjective(g: Grid, x: int, y: int, x': int, y': int)
    requires 0 <= x < g.width && 0 <= x' < g.width
    requires Index(g, x, y) == Index(g, x', y')
    ensures x == x' && y == y'
  {
    if y < y' {
      MulMonotone(y + 1, y', g.width);
    } else if y' < y {
      MulMonotone(y' + 1, y, g.width);
    }
  }

  /** get_cell_value: the cell's value, or IndexError when not in bounds. */
  function GetCellValue(g: Grid, x: int, y: int): (r: Result<real>)
    requires Valid(g)
    ensures r.Ok? <==> InBounds(g, x, y)
    ensures r.Err? ==> r.error == IndexError
    ensures r.Ok? ==> 0 <= Index(g, x, y) < |g.data| && r.value == g.data[Index(g, x, y)]
  {
    if !InBounds(g, x, y) then Err(IndexError) else Ok(g.data[Index(g, x, y)])
  }

  /** is_cell_walkable: the bounds test short-circuits the value read, so
      this never raises. */
  function IsCellWalkable(g: Grid, x: int, y: int): (r: bool)
    requires Valid(g)
    ensures r ==> InBounds(g, x, y)
    ensures r <==> InBounds(g, x, y) && g.data[Index(g, x, y)] < FreeThreshold
  {
    InBounds(g, x, y) && GetCellValue(g, x, y).value < FreeThreshold
  }

  /** is_cell_wall: no bounds test of its own, so it raises IndexError
      outside the bounds; a wall is never walkable. */
  function IsCellWall(g: Grid, x: int, y: int): (r: Result<bool>)
    requires Valid(g)
    ensures r.Err? <==> !InBounds(g, x, y)
    ensures r.Err? ==> r.error == IndexError
    ensures r == Ok(true) ==> !IsCellWalkable(g, x, y)
    ensures r.Ok? ==> (r.value <==> g.data[Index(g, x, y)] > WallThreshold)
  {
    match GetCellValue(g, x, y)
    case Err(e) => Err(e)
    case Ok(v) => Ok(v > WallThreshold)
  }

  /** is_cell_unknown: an unknown cell is in bounds, neither walkable nor a
      wall. */
  function IsCellUnknown(g: Grid, x: int, y: int): (r: bool)
    requires Valid(g)
    ensures r <==> InBounds(g, x, y) && g.data[Index(g, x, y)] == UnknownValue
    ensures r ==> !IsCellWalkable(g, x, y) && IsCellWall(g, x, y) == Ok(false)
  {
    InBounds(g, x, y) && GetCellValue(g, x, y).value == UnknownValue
  }

  /** The walkable cells of a candidate list, in the list's order. */
  function WalkableAmong(g: Grid, cs: seq<Cell>): (r: seq<Cell>)
    requires Valid(g)
  {
    if cs == [] then []
    else (if IsCellWalkable(g, cs[0].0, cs[0].1) then [cs[0]] else []) + WalkableAmong(g, cs[1..])
  }

  predicate Distinct<T(==)>(s: seq<T>)
  {
    forall i, j :: 0 <= i < j < |s| ==> s[i] != s[j]
  }

  /** Filtering keeps exactly the walkable candidates, never adds entries,
      and keeps distinct lists distinct. */
  lemma {:induction false} WalkableAmongSpec(g: Grid, cs: seq<Cell>)
    requires Valid(g)
    ensures |WalkableAmong(g, cs)| <= |cs|
    ensures forall c :: c in WalkableAmong(g, cs) <==> c in cs && IsCellWalkable(g, c.0, c.1)
    ensures Distinct(cs) ==> Distinct(WalkableAmong(g, cs))
  {
    if cs != [] {
      WalkableAmongSpec(g, cs[1..]);
      var head := if IsCellWalkable(g, cs[0].0, cs[0].1) then [cs[0]] else [];
      var tail := WalkableAmong(g, cs[1..]);
      assert WalkableAmong(g, cs) == head + tail;
      forall c
        ensures c in WalkableAmong(g, cs) <==> c in cs && IsCellWalkable(g, c.0, c.1)
      {
        assert c in cs <==> c == cs[0] || c in cs[1..];
      }
      if Distinct(cs) {
        assert Distinct(cs[1..]) by {
          forall i, j | 0 <= i < j < |cs[1..]| ensures cs[1..][i] != cs[1..][j] {
            assert cs[1..][i] == cs[i + 1] && cs[1..][j] == cs[j + 1];
          }
        }
        assert cs[0] !in cs[1..] by {
          forall k | 0 <= k < |cs[1..]| ensures cs[1..][k] != cs[0] {
            assert cs[1..][k] == cs[k + 1];
          }
        }
        assert cs[0] !in tail;
        forall i, j | 0 <= i < j < |head + tail|
          ensures (head + tail)[i] != (head + tail)[j]
        {
          if i < |head| {
            assert (head + tail)[i] == cs[0];
            assert (head + tail)[j] == tail[j - |head|];
          }
        }
      }
    }
  }

  /** The orthogonal candidates in the order the map tests them: left, right,
      up, down. */
  function Orthogonal(x: int, y: int): seq<Cell>
  {
    [(x - 1, y), (x + 1, y), (x, y - 1), (x, y + 1)]
  }

  /** The diagonal candidates in the order the map tests them. */
  function Diagonal(x: int, y: int): seq<Cell>
  {
    [(x - 1, y - 1), (x + 1, y - 1), (x - 1, y + 1), (x + 1, y + 1)]
  }

  /** neighbors_of_4: the walkable orthogonal neighbours, at most four, each
      at Manhattan distance 1. */
  function Neighbors4(g: Grid, x: int, y: int): (r: seq<Cell>)
    requires Valid(g)
    ensures |r| <= 4
    ensures forall c <- r :: IsCellWalkable(g, c.0, c.1) && Manhattan(c, (x, y)) == 1
  {
    (if x != 0 && IsCellWalkable(g, x - 1, y) then [(x - 1, y)] else [])
    + (if x != g.width - 1 && IsCellWalkable(g, x + 1, y) then [(x + 1, y)] else [])
    + (if y != 0 && IsCellWalkable(g, x, y - 1) then [(x, y - 1)] else [])
    + (if y != g.height - 1 && IsCellWalkable(g, x, y + 1) then [(x, y + 1)] else [])
  }

  /** The walkable diagonal neighbours, checked in the order of neighbors_of_8. */
  function DiagonalNeighbors(g: Grid, x: int, y: int): (r: seq<Cell>)
    requires Valid(g)
    ensures |r| <= 4
    ensures forall c <- r :: IsCellWalkable(g, c.0, c.1) && Abs(c.0 - x) == 1 && Abs(c.1 - y) == 1
  {
    (if x != 0 && y != 0 && IsCellWalkable(g, x - 1, y - 1) then [(x - 1, y - 1)] else [])
    + (if x != g.width - 1 && y != 0 && IsCellWalkable(g, x + 1, y - 1) then [(x + 1, y - 1)] else [])
    + (if y != g.height - 1 && x != 0 && IsCellWalkable(g, x - 1, y + 1) then [(x - 1, y + 1)] else [])
    + (if x != g.width - 1 && y != g.height - 1 && IsCellWalkable(g, x + 1, y + 1) then [(x + 1, y + 1)] else [])
  }

  /** neighbors_of_8: neighbors_of_4 followed by the walkable diagonals; at
      most eight entries, each walkable and at Chebyshev distance 1. */
  function Neighbors8(g: Grid, x: int, y: int): (r: seq<Cell>)
    requires Valid(g)
    ensures |r| <= 8
    ensures Neighbors4(g, x, y) <= r
    ensures forall c <- r :: IsCellWalkable(g, c.0, c.1) && Chebyshev(c, (x, y)) == 1
  {
    Neighbors4(g, x, y) + DiagonalNeighbors(g, x, y)
  }

  /** The edge guards (x != 0, x != width-1, ...) never decide anything: the
      neighbour lists are the walkable candidates in the fixed order. */
  lemma Neighbors4Filtered(g: Grid, x: int, y: int)
    requires Valid(g)
    ensures Neighbors4(g, x, y) == WalkableAmong(g, Orthogonal(x, y))
  {
    FourInOrder(g, (x - 1, y), (x + 1, y), (x, y - 1), (x, y + 1));
  }

  lemma DiagonalFiltered(g: Grid, x: int, y: int)
    requires Valid(g)
    ensures DiagonalNeighbors(g, x, y) == WalkableAmong(g, Diagonal(x, y))
  {
    FourInOrder(g, (x - 1, y - 1), (x + 1, y - 1), (x - 1, y + 1), (x + 1, y + 1));
  }

  lemma Neighbors8Filtered(g: Grid, x: int, y: int)
    requires Valid(g)
    ensures Neighbors8(g, x, y) == WalkableAmong(g, Orthogonal(x, y) + Diagonal(x, y))
  {
    Neighbors4Filtered(g, x, y);
    DiagonalFiltered(g, x, y);
    WalkableAmongAppend(g, Orthogonal(x, y), Diagonal(x, y));
  }

  /** Filtering a four-element candidate list, spelled out. */
  lemma FourInOrder(g: Grid, a: Cell, b: Cell, c: Cell, d: Cell)
    requires Valid(g)
    ensures WalkableAmong(g, [a, b, c, d])
         == (if IsCellWalkable(g, a.0, a.1) then [a] else [])
          + (if IsCellWalkable(g, b.0, b.1) then [b] else [])
          + (if IsCellWalkable(g, c.0, c.1) then [c] else [])
          + (if IsCellWalkable(g, d.0, d.1) then [d] else [])
  {
    assert [d][1..] == [];
    var wd := WalkableAmong(g, [d]);
    assert wd == (if IsCellWalkable(g, d.0, d.1) then [d] else []) + WalkableAmong(g, []);
    assert [c, d][1..] == [d];
    var wc := WalkableAmong(g, [c, d]);
    assert wc == (if IsCellWalkable(g, c.0, c.1) then [c] else []) + wd;
    assert [b, c, d][1..] == [c, d];
    var wb := WalkableAmong(g, [b, c, d]);
    assert wb == (if IsCellWalkable(g, b.0, b.1) then [b] else []) + wc;
    assert [a, b, c, d][1..] == [b, c, d];
  }

  lemma {:induction false} WalkableAmongAppend(g: Grid, a: seq<Cell>, b: seq<Cell>)
    requires Valid(g)
    ensures WalkableAmong(g, a + b) == WalkableAmong(g, a) + WalkableAmong(g, b)
  {
    if a != [] {
      assert (a + b)[1..] == a[1..] + b;
      WalkableAmongAppend(g, a[1..], b);
    } else {
      assert a + b == b;
    }
  }

  /** neighbors_of_4 holds exactly the walkable cells at Manhattan distance 1,
      without duplicates. */
  lemma Neighbors4Exactly(g: Grid, x: int, y: int)
    requires Valid(g)
    ensures forall c :: c in Neighbors4(g, x, y) <==> IsCellWalkable(g, c.0, c.1) && Manhattan(c, (x, y)) == 1
    ensures Distinct(Neighbors4(g, x, y))
  {
    Neighbors4Filtered(g, x, y);
    WalkableAmongSpec(g, Orthogonal(x, y));
    forall c: Cell ensures c in Orthogonal(x, y) <==> Manhattan(c, (x, y)) == 1 {
      Ring4(c, x, y);
    }
    assert Distinct(Orthogonal(x, y));
  }

  /** The four candidates are the cells at Manhattan distance 1. */
  lemma Ring4(c: Cell, x: int, y: int)
    ensures c in Orthogonal(x, y) <==> Manhattan(c, (x, y)) == 1
  {
    var dx, dy := c.0 - x, c.1 - y;
    assert c == (x + dx, y + dy);
    if Manhattan(c, (x, y)) == 1 {
      assert (dx == 0 && (dy == 1 || dy == -1)) || (dy == 0 && (dx == 1 || dx == -1));
    }
  }

  /** neighbors_of_8 holds exactly the walkable cells at Chebyshev distance 1,
      without duplicates. */
  lemma Neighbors8Exactly(g: Grid, x: int, y: int)
    requires Valid(g)
    ensures forall c :: c in Neighbors8(g, x, y) <==> IsCellWalkable(g, c.0, c.1) && Chebyshev(c, (x, y)) == 1
    ensures Distinct(Neighbors8(g, x, y))
  {
    var cs := Orthogonal(x, y) + Diagonal(x, y);
    Neighbors8Filtered(g, x, y);
    WalkableAmongSpec(g, cs);
    forall c: Cell ensures c in cs <==> Chebyshev(c, (x, y)) == 1 {
      Ring8(c, x, y);
    }
    CandidatesDistinct(x, y);
  }

  lemma CandidatesDistinct(x: int, y: int)
    ensures Distinct(Orthogonal(x, y) + Diagonal(x, y))
  {
  }

  /** The eight candidates are the cells at Chebyshev distance 1. */
  lemma Ring8(c: Cell, x: int, y: int)
    ensures c in Orthogonal(x, y) + Diagonal(x, y) <==> Chebyshev(c, (x, y)) == 1
  {
    var dx, dy := c.0 - x, c.1 - y;
    assert c == (x + dx, y + dy);
    if Chebyshev(c, (x, y)) == 1 {
      assert -1 <= dx <= 1 && -1 <= dy <= 1 && (dx != 0 || dy != 0);
      if dy == 0 {
        assert c == (x - 1, y) || c == (x + 1, y);
      } else if dx == 0 {
        assert c == (x, y - 1) || c == (x, y + 1);
      } else if dy == -1 {
        assert c == (x - 1, y - 1) || c == (x + 1, y - 1);
      } else {
        assert c == (x - 1, y + 1) || c == (x + 1, y + 1);
      }
    }
  }
}
