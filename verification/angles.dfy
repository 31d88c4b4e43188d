/** The pure motion helpers of lab 2: angle normalisation, the turn-direction
    rule and the distance between two points. Angles are exact reals, and
    Pi is 3.141592653589793, the shortest decimal that rounds to the double
    math.pi (the double itself is larger by less than 1e-15). */
module Angles {

  const Pi: real := 3.141592653589793
  const TwoPi: real := 2.0 * Pi

  /** The angle differs from the original by a whole number of turns. */
  predicate WholeTurns(d: real)
  {
    (d / TwoPi).Floor as real == d / TwoPi
  }

  /** The value normalize_angle computes, in closed form: above Pi it
      subtracts whole turns until at most Pi, below -Pi it adds whole turns
      until at least -Pi, and otherwise it leaves the angle alone. */
  function NormalAngle(a: real): (r: real)
    ensures -Pi <= r <= Pi
    ensures a > Pi ==> -Pi < r
    ensures a < -Pi ==> r < Pi
    ensures -Pi <= a <= Pi ==> r == a
    ensures WholeTurns(a - r)
  {
    if a > Pi then
      var f := ((Pi - a) / TwoPi).Floor;
      FloorTurns(Pi - a);
      WholeTurnsOf(-f);
      a + TwoPi * f as real
    else if a < -Pi then
      var f := ((a + Pi) / TwoPi).Floor;
      FloorTurns(a + Pi);
      WholeTurnsOf(f);
      a - TwoPi * f as real
    else
      WholeTurnsOf(0);
      a
  }

  /** The whole turns below d lie within one turn of d. */
  lemma FloorTurns(d: real)
    ensures var f := (d / TwoPi).Floor as real; TwoPi * f <= d < TwoPi * f + TwoPi
  {
    var t := d / TwoPi;
    assert TwoPi * t == d;
    assert t.Floor as real <= t < t.Floor as real + 1.0;
  }

  lemma WholeTurnsOf(k: int)
    ensures WholeTurns(TwoPi * k as real)
  {
    assert TwoPi * k as real / TwoPi == k as real;
  }

  /** Normalising twice is normalising once. */
  lemma NormalAngleIdempotent(a: real)
    ensures NormalAngle(NormalAngle(a)) == NormalAngle(a)
  {
  }

  /** A value reached from a > Pi by subtracting n whole turns that lands in
      (-Pi, Pi] is the closed form. */
  lemma TurnsDown(a: real, n: int, r: real)
    requires a > Pi && r == a - TwoPi * n as real && -Pi < r <= Pi
    ensures r == NormalAngle(a)
  {
    var u := (Pi - r) / TwoPi;
    assert 0.0 <= u < 1.0;
    assert (Pi - a) / TwoPi == u - n as real;
    assert (u - n as real).Floor == -n;
  }

  /** A value reached from a < -Pi by adding n whole turns that lands in
      [-Pi, Pi) is the closed form. */
  lemma TurnsUp(a: real, n: int, r: real)
    requires a < -Pi && r == a + TwoPi * n as real && -Pi <= r < Pi
    ensures r == NormalAngle(a)
  {
    var u := (r + Pi) / TwoPi;
    assert 0.0 <= u < 1.0;
    assert (a + Pi) / TwoPi == u - n as real;
    assert (u - n as real).Floor == -n;
  }

  /** normalize_angle: the two while loops of the source. */
  method NormalizeAngle(angle: real) returns (r: real)
    ensures r == NormalAngle(angle)
  {
    r := angle;
    ghost var n: int := 0;
    while r > Pi
      invariant r == angle - TwoPi * n as real
      invariant n >= 0 && (n > 0 ==> r > -Pi)
      decreases r.Floor
    {
      r := r - TwoPi;
      n := n + 1;
    }
    if angle > Pi {
      TurnsDown(angle, n, r);
    }
    ghost var m: int := 0;
    while r < -Pi
      invariant r == angle - TwoPi * n as real + TwoPi * m as real
      invariant m >= 0 && (m > 0 ==> r < Pi && n == 0)
      invariant angle > Pi ==> m == 0
      decreases (-r).Floor
    {
      r := r + TwoPi;
      m := m + 1;
    }
    if angle < -Pi {
      TurnsUp(angle, m, r);
    }
  }

  /** solve_turn_dir: 1 or -1, where 1 is chosen exactly when the goal lies
      more than a quarter turn ahead, or less than a quarter turn behind. */
  function SolveTurnDir(current: real, goal: real): (r: int)
    ensures r == 1 || r == -1
    ensures r == 1 <==> goal - current > Pi / 2.0 || -Pi / 2.0 < goal - current < 0.0
  {
    var diff := goal - current;
    var diff' := if diff < 0.0 then diff + Pi else diff;
    if diff' > Pi / 2.0 then 1 else -1
  }

  /** The answer depends only on the difference of the two angles. */
  lemma SolveTurnDirShift(current: real, goal: real, t: real)
    ensures SolveTurnDir(current + t, goal + t) == SolveTurnDir(current, goal)
  {
  }

  /** The square of dist_between; the square root itself is left out. */
  function DistSq(ix: real, iy: real, x: real, y: real): (r: real)
    ensures r >= 0.0
  {
    SquareNonNegative(ix - x);
    SquareNonNegative(iy - y);
    (ix - x) * (ix - x) + (iy - y) * (iy - y)
  }

  lemma SquareNonNegative(a: real)
    ensures a * a >= 0.0
  {
    if a < 0.0 {
      PositiveSquare(-a);
      NegatedSquare(a);
    } else if a > 0.0 {
      PositiveSquare(a);
    }
  }

  lemma PositiveSquare(a: real)
    requires a > 0.0
    ensures a * a > 0.0
  {
  }

  lemma NegatedSquare(a: real)
    ensures (-a) * (-a) == a * a
  {
  }

  /** dist_between is symmetric and zero from a point to itself. */
  lemma DistSymmetric(ix: real, iy: real, x: real, y: real)
    ensures DistSq(ix, iy, x, y) == DistSq(x, y, ix, iy)
    ensures DistSq(x, y, x, y) == 0.0
  {
    assert (ix - x) * (ix - x) == (x - ix) * (x - ix);
    assert (iy - y) * (iy - y) == (y - iy) * (y - iy);
  }

  /** dist_between(ix, iy, x, y) < bound, decided without a square root. */
  predicate DistBelow(ix: real, iy: real, x: real, y: real, bound: real)
  {
    bound > 0.0 && DistSq(ix, iy, x, y) < bound * bound
  }

  /** For the non-negative root d of the squared distance, DistBelow is the
      comparison d < bound that the source makes. */
  lemma DistBelowIsRootBelow(ix: real, iy: real, x: real, y: real, bound: real, d: real)
    requires d >= 0.0 && d * d == DistSq(ix, iy, x, y)
    ensures DistBelow(ix, iy, x, y, bound) <==> d < bound
  {
    if d < bound {
      MulStrict(d, bound);
    }
    if bound > 0.0 && d * d < bound * bound && d >= bound {
      MulMono(bound, d);
    }
  }

  lemma MulStrict(d: real, b: real)
    requires 0.0 <= d < b
    ensures d * d < b * b
  {
    assert d * b - d * d == d * (b - d);
    assert d * (b - d) >= 0.0;
    assert b * b - d * b == b * (b - d);
    assert b * (b - d) > 0.0;
  }

  lemma MulMono(b: real, d: real)
    requires 0.0 < b <= d
    ensures b * b <= d * d
  {
    assert b * d - b * b == b * (d - b);
    assert d * d - b * d == d * (d - b);
  }
}
