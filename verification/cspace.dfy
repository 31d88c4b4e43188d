/** The configuration-space pass of the lab 4 map (calc_cspace): one
    dilation of every cell above the obstacle threshold into its walkable
    8-neighbours, followed by the list of cells the padded map reports as
    obstacles. */
module CSpace {
  import opened OccupancyGrid

  /** Inflation threshold, on the 0..100 scale (unlike FreeThreshold). */
  const ObstacleThreshold: real := 90.0
  /** The value painted into inflated cells. */
  const Occupied: real := 100.0

  datatype Option<T> = None | Some(value: T)

  /** The scan runs x over range(height) and y over range(width) and reads
      data[y*width + x]; this stays inside the array exactly when the grid is
      empty of rows or no wider than it is tall. */
  predicate ScanFits(g: Grid)
  {
    g.height == 0 || g.width <= g.height
  }

  /** The positions the scan visits. */
  predicate Scanned(g: Grid, x: int, y: int)
  {
    0 <= x < g.height && 0 <= y < g.width
  }

  /** Every position the scan visits has its index inside the array when the
      scan fits. */
  lemma ScanIndexInRange(g: Grid, x: int, y: int)
    requires Valid(g) && ScanFits(g) && Scanned(g, x, y)
    ensures 0 <= Index(g, x, y) < |g.data|
  {
    var w: int, h: int := g.width, g.height;
    MulMonotone(y, w - 1, w);
    assert (w - 1) * w + (h - 1) - w * h == (w - h) * (w - 1) - 1;
    MulMonotone(w - h, 0, w - 1);
  }

  /** When the grid is wider than tall (and has a row), the read at position
      (height-1, width-1) is past the end of the array: the source raises
      IndexError there. */
  lemma ScanOutOfRange(g: Grid)
    requires Valid(g) && !ScanFits(g)
    ensures Scanned(g, g.height - 1, g.width - 1)
    ensures Index(g, g.height - 1, g.width - 1) >= |g.data|
  {
    var w: int, h: int := g.width, g.height;
    assert (w - 1) * w + (h - 1) - w * h == (w - h) * (w - 1) - 1;
    MulMonotone(1, w - h, w - 1);
  }

  /** A scanned cell whose original value exceeds the obstacle threshold. */
  predicate IsSource(g: Grid, x: int, y: int)
    requires Valid(g) && ScanFits(g) && Scanned(g, x, y)
  {
    ScanIndexInRange(g, x, y);
    g.data[Index(g, x, y)] > ObstacleThreshold
  }

  /** The indices of a list of cells. */
  function Indices(g: Grid, cs: seq<Cell>): (r: seq<int>)
    ensures |r| == |cs|
  {
    if cs == [] then [] else Indices(g, cs[..|cs| - 1]) + [Index(g, cs[|cs| - 1].0, cs[|cs| - 1].1)]
  }

  /** The inner loop of the pass: paints each listed neighbour, after
      force_inbound, with Occupied. */
  function PaintCells(g: Grid, p: seq<real>, cs: seq<Cell>): (q: seq<real>)
    requires Valid(g) && |p| == |g.data|
    requires forall c <- cs :: IsCellWalkable(g, c.0, c.1)
    ensures |q| == |p|
  {
    if cs == [] then p
    else
      var n := cs[|cs| - 1];
      assert n in cs;
      assert IsCellWalkable(g, n.0, n.1);
      var c := ForceInbound(g, n.0, n.1);
      PaintCells(g, p, cs[..|cs| - 1])[Index(g, c.0, c.1) := Occupied]
  }

  /** One visit of the scan at (x, y): a source paints itself and its
      walkable 8-neighbours; the test reads the original data, not p. */
  function Visit(g: Grid, p: seq<real>, x: int, y: int): (q: seq<real>)
    requires Valid(g) && ScanFits(g) && Scanned(g, x, y) && |p| == |g.data|
    ensures |q| == |p|
  {
    ScanIndexInRange(g, x, y);
    if IsSource(g, x, y) then PaintCells(g, p[Index(g, x, y) := Occupied], Neighbors8(g, x, y))
    else p
  }

  /** The visits (x, 0) .. (x, y-1) of one outer iteration, applied to p. */
  function ScanRow(g: Grid, p: seq<real>, x: int, y: nat): (q: seq<real>)
    requires Valid(g) && ScanFits(g) && 0 <= x < g.height && y <= g.width && |p| == |g.data|
    ensures |q| == |p|
  {
    if y == 0 then p else Visit(g, ScanRow(g, p, x, y - 1), x, y - 1)
  }

  /** The padded array after the first x outer iterations. */
  function ScanRows(g: Grid, x: nat): (q: seq<real>)
    requires Valid(g) && ScanFits(g) && x <= g.height
    ensures |q| == |g.data|
  {
    if x == 0 then g.data else ScanRow(g, ScanRows(g, x - 1), x - 1, g.width)
  }

  /** The padded array of calc_cspace. */
  function Padded(g: Grid): (q: seq<real>)
    requires Valid(g) && ScanFits(g)
  {
    ScanRows(g, g.height)
  }

  /** A cell of the threshold test: scanned, with value in p above it. */
  predicate Hot(g: Grid, p: seq<real>, c: Cell)
    requires Valid(g) && ScanFits(g) && |p| == |g.data|
  {
    Scanned(g, c.0, c.1) && (ScanIndexInRange(g, c.0, c.1); p[Index(g, c.0, c.1)] > ObstacleThreshold)
  }

  /** The cells (x, 0) .. (x, y-1) whose value in p is above the threshold. */
  function HotRow(g: Grid, p: seq<real>, x: int, y: nat): (r: seq<Cell>)
    requires Valid(g) && ScanFits(g) && 0 <= x < g.height && y <= g.width && |p| == |g.data|
  {
    if y == 0 then []
    else
      HotRow(g, p, x, y - 1) + (if Hot(g, p, (x, y - 1)) then [(x, y - 1)] else [])
  }

  /** The cells of the first x outer iterations whose value in p is above the
      threshold, in scan order. */
  function HotRows(g: Grid, p: seq<real>, x: nat): (r: seq<Cell>)
    requires Valid(g) && ScanFits(g) && x <= g.height && |p| == |g.data|
  {
    if x == 0 then [] else HotRows(g, p, x - 1) + HotRow(g, p, x - 1, g.width)
  }

  /** The list calc_cspace publishes (as grid cells, not world points). */
  function HotCells(g: Grid, p: seq<real>): (r: seq<Cell>)
    requires Valid(g) && ScanFits(g) && |p| == |g.data|
  {
    HotRows(g, p, g.height)
  }

  // ---------------------------------------------------------------------
  // What the padded array is: a cell is painted exactly when some scanned
  // source hits it.

  /** The visit at (x, y) paints index i. */
  predicate Hits(g: Grid, x: int, y: int, i: int)
    requires Valid(g) && ScanFits(g) && Scanned(g, x, y)
  {
    IsSource(g, x, y) && (i == Index(g, x, y) || i in Indices(g, Neighbors8(g, x, y)))
  }

  /** Scan order: (a, b) is visited before (x, y). */
  predicate Earlier(a: int, b: int, x: int, y: int)
  {
    a < x || (a == x && b < y)
  }

  /** Index i is painted by a visit before (x, y). */
  ghost predicate MarkedBefore(g: Grid, i: int, x: int, y: int)
    requires Valid(g) && ScanFits(g)
  {
    exists a, b :: Scanned(g, a, b) && Earlier(a, b, x, y) && Hits(g, a, b, i)
  }

  /** Index i is painted by some visit of the scan. */
  ghost predicate Marked(g: Grid, i: int)
    requires Valid(g) && ScanFits(g)
  {
    MarkedBefore(g, i, g.height, 0)
  }

  /** force_inbound changes no neighbour: painting the listed cells sets
      exactly their indices. */
  lemma {:induction false} PaintCellsAt(g: Grid, p: seq<real>, cs: seq<Cell>, i: int)
    requires Valid(g) && |p| == |g.data| && 0 <= i < |p|
    requires forall c <- cs :: IsCellWalkable(g, c.0, c.1)
    ensures PaintCells(g, p, cs)[i] == if i in Indices(g, cs) then Occupied else p[i]
  {
    if cs != [] {
      var init := cs[..|cs| - 1];
      assert forall c <- init :: c in cs;
      PaintCellsAt(g, p, init, i);
      var n := cs[|cs| - 1];
      assert n in cs;
      assert ForceInbound(g, n.0, n.1) == n;
    }
  }

  lemma VisitAt(g: Grid, p: seq<real>, x: int, y: int, i: int)
    requires Valid(g) && ScanFits(g) && Scanned(g, x, y) && |p| == |g.data| && 0 <= i < |p|
    ensures Visit(g, p, x, y)[i] == if Hits(g, x, y, i) then Occupied else p[i]
  {
    ScanIndexInRange(g, x, y);
    if IsSource(g, x, y) {
      PaintCellsAt(g, p[Index(g, x, y) := Occupied], Neighbors8(g, x, y), i);
    }
  }

  /** Within one outer iteration, index i is painted exactly by the visits
      before (x, y). */
  lemma {:induction false} ScanRowAt(g: Grid, p: seq<real>, x: int, y: nat, i: int)
    requires Valid(g) && ScanFits(g) && 0 <= x < g.height && y <= g.width && |p| == |g.data|
    requires 0 <= i < |p|
    requires p[i] == if MarkedBefore(g, i, x, 0) then Occupied else g.data[i]
    ensures ScanRow(g, p, x, y)[i] == if MarkedBefore(g, i, x, y) then Occupied else g.data[i]
  {
    if y > 0 {
      var q := ScanRow(g, p, x, y - 1);
      assert ScanRow(g, p, x, y) == Visit(g, q, x, y - 1);
      ScanRowAt(g, p, x, y - 1, i);
      VisitAt(g, q, x, y - 1, i);
      MarkedStep(g, i, x, y - 1);
    }
  }

  /** Visiting (x, y) adds exactly its hits to what is marked. */
  lemma MarkedStep(g: Grid, i: int, x: int, y: int)
    requires Valid(g) && ScanFits(g) && Scanned(g, x, y)
    ensures MarkedBefore(g, i, x, y + 1) <==> MarkedBefore(g, i, x, y) || Hits(g, x, y, i)
  {
    if MarkedBefore(g, i, x, y + 1) {
      var a, b :| Scanned(g, a, b) && Earlier(a, b, x, y + 1) && Hits(g, a, b, i);
      if !(a == x && b == y) {
        assert Earlier(a, b, x, y);
      }
    }
    if Hits(g, x, y, i) {
      assert Earlier(x, y, x, y + 1);
    }
    if MarkedBefore(g, i, x, y) {
      var a, b :| Scanned(g, a, b) && Earlier(a, b, x, y) && Hits(g, a, b, i);
      assert Earlier(a, b, x, y + 1);
    }
  }

  /** The end of an outer iteration is the start of the next. */
  lemma MarkedRowEnd(g: Grid, i: int, x: int)
    requires Valid(g) && ScanFits(g)
    ensures MarkedBefore(g, i, x, g.width) <==> MarkedBefore(g, i, x + 1, 0)
  {
    if MarkedBefore(g, i, x, g.width) {
      var a, b :| Scanned(g, a, b) && Earlier(a, b, x, g.width) && Hits(g, a, b, i);
      assert Earlier(a, b, x + 1, 0);
    }
    if MarkedBefore(g, i, x + 1, 0) {
      var a, b :| Scanned(g, a, b) && Earlier(a, b, x + 1, 0) && Hits(g, a, b, i);
      assert Earlier(a, b, x, g.width);
    }
  }

  lemma {:induction false} ScanRowsAt(g: Grid, x: nat, i: int)
    requires Valid(g) && ScanFits(g) && x <= g.height && 0 <= i < |g.data|
    ensures ScanRows(g, x)[i] == if MarkedBefore(g, i, x, 0) then Occupied else g.data[i]
  {
    if x > 0 {
      ScanRowsAt(g, x - 1, i);
      ScanRowAt(g, ScanRows(g, x - 1), x - 1, g.width, i);
      MarkedRowEnd(g, i, x - 1);
    }
  }

  /** The padded array holds Occupied exactly at the cells some scanned
      source paints, and the original value everywhere else. */
  lemma PaddedAt(g: Grid, i: int)
    requires Valid(g) && ScanFits(g) && 0 <= i < |g.data|
    ensures |Padded(g)| == |g.data|
    ensures Padded(g)[i] == if Marked(g, i) then Occupied else g.data[i]
  {
    ScanRowsAt(g, g.height, i);
  }

  /** Every cell keeps its value or becomes Occupied. */
  lemma PaddedKeepsOrOccupies(g: Grid, i: int)
    requires Valid(g) && ScanFits(g) && 0 <= i < |g.data|
    ensures Padded(g)[i] == g.data[i] || Padded(g)[i] == Occupied
  {
    PaddedAt(g, i);
  }

  /** Every scanned source is Occupied, and so is each of its walkable
      8-neighbours. */
  lemma PaddedCoversSources(g: Grid, x: int, y: int)
    requires Valid(g) && ScanFits(g) && Scanned(g, x, y) && IsSource(g, x, y)
    ensures 0 <= Index(g, x, y) < |Padded(g)| && Padded(g)[Index(g, x, y)] == Occupied
    ensures forall n <- Neighbors8(g, x, y) ::
              0 <= Index(g, n.0, n.1) < |Padded(g)| && Padded(g)[Index(g, n.0, n.1)] == Occupied
  {
    ScanIndexInRange(g, x, y);
    var i := Index(g, x, y);
    assert Hits(g, x, y, i) && Earlier(x, y, g.height, 0);
    PaddedAt(g, i);
    var ns := Neighbors8(g, x, y);
    forall n <- ns
      ensures 0 <= Index(g, n.0, n.1) < |Padded(g)| && Padded(g)[Index(g, n.0, n.1)] == Occupied
    {
      var j := Index(g, n.0, n.1);
      IndicesHas(g, ns, n);
      assert Hits(g, x, y, j);
      PaddedAt(g, j);
    }
  }

  lemma {:induction false} IndicesHas(g: Grid, cs: seq<Cell>, c: Cell)
    requires c in cs
    ensures Index(g, c.0, c.1) in Indices(g, cs)
  {
    var init := cs[..|cs| - 1];
    if c != cs[|cs| - 1] {
      assert c in init by {
        var k :| 0 <= k < |cs| && cs[k] == c;
        assert init[k] == c;
      }
      IndicesHas(g, init, c);
    }
  }

  lemma {:induction false} IndicesFrom(g: Grid, cs: seq<Cell>, i: int)
    requires i in Indices(g, cs)
    ensures exists c :: c in cs && Index(g, c.0, c.1) == i
  {
    var init := cs[..|cs| - 1];
    if i != Index(g, cs[|cs| - 1].0, cs[|cs| - 1].1) {
      IndicesFrom(g, init, i);
      var c :| c in init && Index(g, c.0, c.1) == i;
      assert c in cs;
    } else {
      assert cs[|cs| - 1] in cs;
    }
  }

  /** A cell of the grid changes only if some scanned source sits at its
      index or has it as a walkable 8-neighbour. */
  lemma PaddedChangesOnlyNearSources(g: Grid, a: int, b: int)
    requires Valid(g) && ScanFits(g) && 0 <= a < g.width && 0 <= b < g.height
    requires Padded(g)[Index(g, a, b)] != g.data[Index(g, a, b)]
    ensures exists x, y :: Scanned(g, x, y) && IsSource(g, x, y)
              && (Index(g, x, y) == Index(g, a, b) || (a, b) in Neighbors8(g, x, y))
  {
    var i := Index(g, a, b);
    PaddedAt(g, i);
    var x, y :| Scanned(g, x, y) && Earlier(x, y, g.height, 0) && Hits(g, x, y, i);
    if i != Index(g, x, y) {
      IndicesFrom(g, Neighbors8(g, x, y), i);
      var n :| n in Neighbors8(g, x, y) && Index(g, n.0, n.1) == i;
      IndexInjective(g, n.0, n.1, a, b);
    }
  }

  /** With 2 <= width < height the scan stays inside the array but does not
      visit it cell for cell: the last index is never read, and index width
      is read twice, at (width, 0) and at (0, 1). */
  lemma ScanSkipsAndRepeats(g: Grid)
    requires Valid(g) && 2 <= g.width < g.height
    ensures forall x, y :: Scanned(g, x, y) ==> Index(g, x, y) != |g.data| - 1
    ensures Scanned(g, g.width, 0) && Scanned(g, 0, 1) && Index(g, g.width, 0) == Index(g, 0, 1)
  {
    var w: int, h: int := g.width, g.height;
    MulMonotone(1, h - w, w - 1);
    assert (w - 1) * w + (h - 1) == w * h - 1 - (w - 1) * (h - w);
    forall x, y | Scanned(g, x, y) ensures Index(g, x, y) != |g.data| - 1 {
      MulMonotone(y, w - 1, w);
    }
  }

  /** The last cell is never in bounds, so it is never a neighbour. */
  lemma LastNotNeighbour(g: Grid, cs: seq<Cell>)
    requires Valid(g) && 1 <= g.width && 1 <= g.height
    requires forall c <- cs :: IsCellWalkable(g, c.0, c.1)
    ensures |g.data| - 1 !in Indices(g, cs)
  {
    var last := |g.data| - 1;
    if last in Indices(g, cs) {
      IndicesFrom(g, cs, last);
      var c :| c in cs && Index(g, c.0, c.1) == last;
      LastIndex(g);
      assert IsCellWalkable(g, c.0, c.1);
      IndexInjective(g, c.0, c.1, g.width - 1, g.height - 1);
      assert false;
    }
  }

  /** The last cell of a non-empty grid sits at the last index. */
  lemma LastIndex(g: Grid)
    requires Valid(g) && 1 <= g.width && 1 <= g.height
    ensures Index(g, g.width - 1, g.height - 1) == |g.data| - 1
  {
    var w: int, h: int := g.width, g.height;
    assert (h - 1) * w + w == h * w;
  }

  /** So the last cell keeps its original value, even when it is above the
      obstacle threshold: it is neither visited nor anyone's neighbour. */
  lemma ScanSkipsLastCell(g: Grid)
    requires Valid(g) && 2 <= g.width < g.height
    ensures Padded(g)[|g.data| - 1] == g.data[|g.data| - 1]
  {
    var last := |g.data| - 1;
    ScanSkipsAndRepeats(g);
    PaddedAt(g, last);
    forall a, b | Scanned(g, a, b) ensures !Hits(g, a, b, last) {
      LastNotNeighbour(g, Neighbors8(g, a, b));
    }
  }

  // ---------------------------------------------------------------------
  // What the reported list is.

  predicate ScanLess(c: Cell, d: Cell)
  {
    Earlier(c.0, c.1, d.0, d.1)
  }

  /** Strictly increasing in scan order, hence duplicate-free. */
  predicate InScanOrder(r: seq<Cell>)
  {
    forall i, j :: 0 <= i < j < |r| ==> ScanLess(r[i], r[j])
  }

  lemma {:induction false} HotRowSpec(g: Grid, p: seq<real>, x: int, y: nat)
    requires Valid(g) && ScanFits(g) && 0 <= x < g.height && y <= g.width && |p| == |g.data|
    ensures InScanOrder(HotRow(g, p, x, y))
    ensures forall c :: c in HotRow(g, p, x, y) <==> c.0 == x && c.1 < y && Hot(g, p, c)
  {
    if y > 0 {
      HotRowSpec(g, p, x, y - 1);
      var front := HotRow(g, p, x, y - 1);
      var last: seq<Cell> := if Hot(g, p, (x, y - 1)) then [(x, y - 1)] else [];
      assert HotRow(g, p, x, y) == front + last;
      forall c: Cell ensures c in front + last <==> c.0 == x && c.1 < y && Hot(g, p, c) {
        assert c in front + last <==> c in front || c in last;
      }
      forall i, j | 0 <= i < j < |front + last|
        ensures ScanLess((front + last)[i], (front + last)[j])
      {
        if j >= |front| {
          assert (front + last)[i] in front;
        }
      }
    }
  }

  lemma {:induction false} HotRowsSpec(g: Grid, p: seq<real>, x: nat)
    requires Valid(g) && ScanFits(g) && x <= g.height && |p| == |g.data|
    ensures InScanOrder(HotRows(g, p, x))
    ensures forall c :: c in HotRows(g, p, x) <==> c.0 < x && Hot(g, p, c)
  {
    if x > 0 {
      HotRowsSpec(g, p, x - 1);
      HotRowSpec(g, p, x - 1, g.width);
      var front := HotRows(g, p, x - 1);
      var row := HotRow(g, p, x - 1, g.width);
      forall c: Cell ensures c in front + row <==> c.0 < x && Hot(g, p, c) {
        assert c in front + row <==> c in front || c in row;
      }
      forall i, j | 0 <= i < j < |front + row|
        ensures ScanLess((front + row)[i], (front + row)[j])
      {
        if i < |front| && j >= |front| {
          assert (front + row)[i] in front;
          assert (front + row)[j] in row;
        }
      }
    }
  }

  /** The reported list holds exactly the scanned cells whose padded value is
      above the threshold, in scan order, each once; the original sources are
      among them. */
  lemma HotCellsSpec(g: Grid)
    requires Valid(g) && ScanFits(g)
    ensures |Padded(g)| == |g.data|
    ensures InScanOrder(HotCells(g, Padded(g)))
    ensures forall c :: c in HotCells(g, Padded(g)) <==> Hot(g, Padded(g), c)
    ensures forall x, y :: Scanned(g, x, y) && IsSource(g, x, y) ==> (x, y) in HotCells(g, Padded(g))
  {
    HotRowsSpec(g, Padded(g), g.height);
    forall x, y | Scanned(g, x, y) && IsSource(g, x, y)
      ensures (x, y) in HotCells(g, Padded(g))
    {
      PaddedCoversSources(g, x, y);
    }
  }

  /** Painting the neighbours one at a time. */
  lemma PaintCellsSnoc(g: Grid, p: seq<real>, cs: seq<Cell>, j: nat)
    requires Valid(g) && |p| == |g.data| && j < |cs|
    requires forall c <- cs :: IsCellWalkable(g, c.0, c.1)
    ensures forall c <- cs[..j] :: IsCellWalkable(g, c.0, c.1)
    ensures forall c <- cs[..j + 1] :: IsCellWalkable(g, c.0, c.1)
    ensures var c := ForceInbound(g, cs[j].0, cs[j].1);
            0 <= Index(g, c.0, c.1) < |p|
            && PaintCells(g, p, cs[..j + 1]) == PaintCells(g, p, cs[..j])[Index(g, c.0, c.1) := Occupied]
  {
    assert cs[..j + 1][..j] == cs[..j];
    assert cs[j] in cs;
  }

  /** The innermost loop of calc_cspace's first pass: every walkable
      8-neighbour of (x, y), moved in bounds by force_inbound, is painted
      occupied in a, in the order neighbors_of_8 lists them. */
  method PaintNeighbours(g: Grid, a: array<real>, x: int, y: int)
    requires Valid(g) && a.Length == |g.data|
    modifies a
    ensures a[..] == PaintCells(g, old(a[..]), Neighbors8(g, x, y))
  {
    ghost var base := a[..];
    var ns := Neighbors8(g, x, y);
    var j := 0;
    while j < |ns|
      invariant 0 <= j <= |ns|
      invariant a[..] == PaintCells(g, base, ns[..j])
    {
      var c := ForceInbound(g, ns[j].0, ns[j].1);
      PaintCellsSnoc(g, base, ns, j);
      a[Index(g, c.0, c.1)] := Occupied;
      j := j + 1;
    }
    assert ns[..j] == ns;
  }

  /** calc_cspace's first pass: a copy of the data in which every source
      and its walkable 8-neighbours are painted occupied, the sources being
      decided on the original data, in scan order. */
  method PadObstacles(g: Grid) returns (padded: seq<real>)
    requires Valid(g) && ScanFits(g)
    ensures padded == Padded(g)
  {
    var a := new real[|g.data|](i requires 0 <= i < |g.data| => g.data[i]);
    var x := 0;
    while x < g.height
      invariant 0 <= x <= g.height
      invariant a[..] == ScanRows(g, x)
    {
      var y := 0;
      while y < g.width
        invariant 0 <= y <= g.width
        invariant a[..] == ScanRow(g, ScanRows(g, x), x, y)
      {
        ScanIndexInRange(g, x, y);
        var i := Index(g, x, y);
        if g.data[i] > ObstacleThreshold {
          a[i] := Occupied;
          PaintNeighbours(g, a, x, y);
        }
        y := y + 1;
      }
      x := x + 1;
    }
    padded := a[..];
  }

  /** calc_cspace's second pass: the cells whose padded value exceeds the
      obstacle threshold, in scan order. */
  method CollectHot(g: Grid, p: seq<real>) returns (cells: seq<Cell>)
    requires Valid(g) && ScanFits(g) && |p| == |g.data|
    ensures cells == HotCells(g, p)
  {
    cells := [];
    var x := 0;
    while x < g.height
      invariant 0 <= x <= g.height
      invariant cells == HotRows(g, p, x)
    {
      var y := 0;
      while y < g.width
        invariant 0 <= y <= g.width
        invariant cells == HotRows(g, p, x) + HotRow(g, p, x, y)
      {
        ScanIndexInRange(g, x, y);
        if p[Index(g, x, y)] > ObstacleThreshold {
          cells := cells + [(x, y)];
        }
        y := y + 1;
      }
      x := x + 1;
    }
  }

  /** The map object: the grid of the last refresh and its C-space. */
  class Map {
    var grid: Grid
    var cspaceData: seq<real>

    /** calc_cspace. When the scan would read past the array (a grid wider
        than tall) the source raises IndexError before storing anything. */
    method CalcCSpace() returns (result: Result<seq<Cell>>)
      requires Valid(grid)
      modifies this`cspaceData
      ensures result.Ok? <==> ScanFits(grid)
      ensures result.Ok? ==> cspaceData == Padded(grid) && result.value == HotCells(grid, Padded(grid))
      ensures result.Err? ==> result.error == IndexError && cspaceData == old(cspaceData)
    {
      var g := grid;
      if !ScanFits(g) {
        ScanOutOfRange(g);
        return Err(IndexError);
      }
      var padded := PadObstacles(g);
      var cells := CollectHot(g, padded);
      cspaceData := padded;
      result := Ok(cells);
    }

    /** refresh_map with the map service's answer as a parameter: no answer
        raises TypeError and changes nothing; otherwise the grid is replaced
        and the C-space recomputed. */
    method Refresh(response: Option<Grid>) returns (result: Result<seq<Cell>>)
      requires response.Some? ==> Valid(response.value)
      modifies this
      ensures response.None? ==> result == Err(TypeError) && grid == old(grid) && cspaceData == old(cspaceData)
      ensures response.Some? ==> grid == response.value
      ensures response.Some? ==> (result.Ok? <==> ScanFits(grid))
      ensures result.Ok? ==> cspaceData == Padded(grid) && result.value == HotCells(grid, Padded(grid))
      ensures response.Some? && result.Err? ==> result.error == IndexError && cspaceData == old(cspaceData)
    {
      if response.None? {
        return Err(TypeError);
      }
      grid := response.value;
      result := CalcCSpace();
    }
  }
}
