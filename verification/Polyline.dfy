/**
 Ramer-Douglas-Peucker simplification and even thinning of a polyline
 (`simplify_line`, apps/api/app/utils/geo.py), over exact coordinates.

 Distances are compared through their squares, so no square root is taken.
 */
module Polyline {
  import opened LineSimplification

  datatype Point = Point(x: real, y: real)

  function Length2(a: Point, b: Point): real {
    (b.x - a.x) * (b.x - a.x) + (b.y - a.y) * (b.y - a.y)
  }

  function Cross(p: Point, a: Point, b: Point): real {
    (b.y - a.y) * p.x - (b.x - a.x) * p.y + b.x * a.y - b.y * a.x
  }

  /** The squared distance of `p` from the line through `a` and `b`, or from `a` when they coincide. */
  function Distance2(p: Point, a: Point, b: Point): real {
    if Length2(a, b) != 0.0 then Cross(p, a, b) * Cross(p, a, b) / Length2(a, b) else Length2(a, p)
  }

  /** The scan of `rdp` over the interior vertices. */
  method Farthest(ps: seq<Point>) returns (worst: real, index: nat)
    requires |ps| >= 3
    ensures (worst, index) == Scan(ps, |ps| - 1, Distance2)
    ensures FirstFarthest(ps, |ps| - 1, worst, index, Distance2)
  {
    var a, b := ps[0], ps[|ps| - 1];
    worst, index := 0.0, 0;
    for i := 1 to |ps| - 1
      invariant (worst, index) == Scan(ps, i, Distance2)
    {
      var d := Distance2(ps[i], a, b);
      if d > worst {
        worst, index := d, i;
      }
    }
    ScanFindsFirstFarthest(ps, |ps| - 1, Distance2);
  }

  method SimplifyByDistance(ps: seq<Point>, limit: real) returns (out: seq<Point>)
    requires limit >= 0.0 || NowhereFlat(ps, Distance2)
    ensures out == Simplification(ps, limit, Distance2)
    decreases |ps|, 1
  {
    if |ps| < 3 {
      return ps;
    }
    var worst, index := Farthest(ps);
    if worst <= limit {
      SimplificationStops(ps, limit, Distance2);
      return [ps[0], ps[|ps| - 1]];
    }
    SimplificationSplits(ps, limit, Distance2);
    out := SimplifyHalves(ps, limit, index);
  }

  /** Both halves, which share the vertex at which the line is split. */
  method SimplifyHalves(ps: seq<Point>, limit: real, index: nat) returns (out: seq<Point>)
    requires 0 < index < |ps| - 1
    requires limit >= 0.0 || (NowhereFlat(ps[..index + 1], Distance2) && NowhereFlat(ps[index..], Distance2))
    requires Simplification(ps[..index + 1], limit, Distance2) != []
    ensures out == Spliced(Simplification(ps[..index + 1], limit, Distance2),
                           Simplification(ps[index..], limit, Distance2))
    decreases |ps|, 0
  {
    var left := SimplifyByDistance(ps[..index + 1], limit);
    var right := SimplifyByDistance(ps[index..], limit);
    out := left[..|left| - 1] + right;
  }

  // ---- what the distance means ----

  function Along(a: Point, b: Point, t: real): Point {
    Point(a.x + t * (b.x - a.x), a.y + t * (b.y - a.y))
  }

  /** For a chord of some length, `p` is within the limit exactly when some point of the line through
      `a` and `b` is that near. */
  lemma {:induction false} DistanceIsToTheLine(p: Point, a: Point, b: Point, limit: real)
    requires Length2(a, b) != 0.0
    ensures Distance2(p, a, b) <= limit <==> exists t :: Length2(Along(a, b, t), p) <= limit
  {
    var foot := FootOfPerpendicular(p, a, b);
    forall t ensures Length2(Along(a, b, t), p) >= Distance2(p, a, b) {
      NoPointIsNearer(p, a, b, t);
    }
  }

  /** Lagrange's identity for the vectors from `a` to `p` and from `a` to `b`. */
  lemma {:induction false} Lagrange(u: real, v: real, dx: real, dy: real, t: real)
    ensures ((u - t * dx) * (u - t * dx) + (v - t * dy) * (v - t * dy)) * (dx * dx + dy * dy)
         == (dy * u - dx * v) * (dy * u - dx * v)
            + (dx * u + dy * v - t * (dx * dx + dy * dy)) * (dx * u + dy * v - t * (dx * dx + dy * dy))
  {
    var p, q := u - t * dx, v - t * dy;
    assert dy * p - dx * q == dy * u - dx * v by {
      assert dy * p == dy * u - t * dx * dy;
      assert dx * q == dx * v - t * dx * dy;
    }
    assert dx * p + dy * q == dx * u + dy * v - t * (dx * dx + dy * dy) by {
      assert dx * p == dx * u - t * (dx * dx);
      assert dy * q == dy * v - t * (dy * dy);
    }
    SumOfSquares(p, q, dx, dy);
  }

  lemma {:induction false} SumOfSquares(p: real, q: real, dx: real, dy: real)
    ensures (p * p + q * q) * (dx * dx + dy * dy)
         == (dy * p - dx * q) * (dy * p - dx * q) + (dx * p + dy * q) * (dx * p + dy * q)
  {
  }

  lemma {:induction false} CrossOfVectors(p: Point, a: Point, b: Point)
    ensures Cross(p, a, b) == (b.y - a.y) * (p.x - a.x) - (b.x - a.x) * (p.y - a.y)
  {
    assert (b.y - a.y) * (p.x - a.x) == (b.y - a.y) * p.x - b.y * a.x + a.y * a.x;
    assert (b.x - a.x) * (p.y - a.y) == (b.x - a.x) * p.y - b.x * a.y + a.x * a.y;
  }

  lemma {:induction false} LengthFromLine(p: Point, a: Point, b: Point, t: real)
    ensures var u, v := p.x - a.x - t * (b.x - a.x), p.y - a.y - t * (b.y - a.y);
      Length2(Along(a, b, t), p) == u * u + v * v
  {
    var q := Along(a, b, t);
    assert p.x - q.x == p.x - a.x - t * (b.x - a.x);
    assert p.y - q.y == p.y - a.y - t * (b.y - a.y);
  }

  /** How far the point at `t` is from the foot of the perpendicular, scaled by the squared chord length. */
  function Offset(p: Point, a: Point, b: Point, t: real): real {
    (b.x - a.x) * (p.x - a.x) + (b.y - a.y) * (p.y - a.y) - t * Length2(a, b)
  }

  lemma {:induction false} ProductOfEquals(l: real, n: real, c: real, o: real, l': real, n': real, c': real, o': real)
    requires l == l' && n == n' && c == c' && o == o'
    requires l' * n' == c' * c' + o' * o'
    ensures l * n == c * c + o * o
  {
  }

  /** Lagrange's identity, with the terms named. */
  lemma {:induction false} NamedLagrange(
      u: real, v: real, dx: real, dy: real, t: real, l: real, n: real, c: real, o: real)
    requires l == (u - t * dx) * (u - t * dx) + (v - t * dy) * (v - t * dy)
    requires n == dx * dx + dy * dy
    requires c == dy * u - dx * v
    requires o == dx * u + dy * v - t * n
    ensures l * n == c * c + o * o
  {
    Lagrange(u, v, dx, dy, t);
    ProductOfEquals(
      l, n, c, o,
      (u - t * dx) * (u - t * dx) + (v - t * dy) * (v - t * dy), dx * dx + dy * dy,
      dy * u - dx * v, dx * u + dy * v - t * (dx * dx + dy * dy));
  }

  lemma {:induction false} Nearness(p: Point, a: Point, b: Point, t: real)
    ensures Length2(Along(a, b, t), p) * Length2(a, b)
         == Cross(p, a, b) * Cross(p, a, b) + Offset(p, a, b, t) * Offset(p, a, b, t)
  {
    CrossOfVectors(p, a, b);
    LengthFromLine(p, a, b, t);
    NamedLagrange(
      p.x - a.x, p.y - a.y, b.x - a.x, b.y - a.y, t,
      Length2(Along(a, b, t), p), Length2(a, b), Cross(p, a, b), Offset(p, a, b, t));
  }

  lemma {:induction false} NoPointIsNearer(p: Point, a: Point, b: Point, t: real)
    requires Length2(a, b) != 0.0
    ensures Length2(Along(a, b, t), p) >= Distance2(p, a, b)
  {
    Nearness(p, a, b, t);
    LengthPositive(a, b);
    assert Offset(p, a, b, t) * Offset(p, a, b, t) >= 0.0;
    Divide(Length2(Along(a, b, t), p), Cross(p, a, b) * Cross(p, a, b), Length2(a, b));
  }

  lemma {:induction false} FootOfPerpendicular(p: Point, a: Point, b: Point) returns (t: real)
    requires Length2(a, b) != 0.0
    ensures Length2(Along(a, b, t), p) == Distance2(p, a, b)
  {
    var n := Length2(a, b);
    LengthPositive(a, b);
    var dot := (b.x - a.x) * (p.x - a.x) + (b.y - a.y) * (p.y - a.y);
    t := dot / n;
    Nearness(p, a, b, t);
    assert Offset(p, a, b, t) == 0.0;
    Divide(Length2(Along(a, b, t), p), Cross(p, a, b) * Cross(p, a, b), n);
  }

  lemma {:induction false} LengthPositive(a: Point, b: Point)
    requires Length2(a, b) != 0.0
    ensures Length2(a, b) > 0.0
  {
    var u, v := b.x - a.x, b.y - a.y;
    assert u * u >= 0.0 && v * v >= 0.0;
  }

  lemma {:induction false} Divide(x: real, y: real, n: real)
    requires n > 0.0
    ensures x * n >= y ==> x >= y / n
    ensures x * n == y ==> x == y / n
  {
    assert (y / n) * n == y;
    if x < y / n {
      assert x * n < (y / n) * n;
    }
  }

  // ---- what simplifying keeps ----

  ghost predicate OnLine(p: Point, a: Point, b: Point) {
    exists t :: Along(a, b, t) == p
  }

  function Square(u: real): real {
    u * u
  }

  lemma {:induction false} PositiveProduct(a: real, b: real)
    requires a > 0.0 && b > 0.0
    ensures a * b > 0.0
  {
  }

  lemma {:induction false} PositiveSquare(u: real)
    requires u > 0.0
    ensures Square(u) > 0.0
  {
    calc {
      Square(u);
    ==
      u * u;
    >  { PositiveProduct(u, u); }
      0.0;
    }
  }

  lemma {:induction false} SquareOfOpposite(u: real)
    ensures Square(u) == Square(-u)
  {
  }

  lemma {:induction false} SquareFacts(u: real)
    ensures Square(u) >= 0.0 && (u != 0.0 ==> Square(u) > 0.0) && (u == 0.0 ==> Square(u) == 0.0)
  {
    if u > 0.0 {
      PositiveSquare(u);
    } else if u < 0.0 {
      PositiveSquare(-u);
      SquareOfOpposite(u);
    }
  }

  lemma {:induction false} LengthInSquares(a: Point, p: Point)
    ensures Length2(a, p) == Square(p.x - a.x) + Square(p.y - a.y)
  {
  }

  lemma {:induction false} NoDistance(a: Point, p: Point)
    ensures Length2(a, p) <= 0.0 <==> a == p
  {
    LengthInSquares(a, p);
    SquareFacts(p.x - a.x);
    SquareFacts(p.y - a.y);
  }

  /** The compared distance is nought exactly on the line, or in the point when the chord has no length. */
  lemma {:induction false} DistanceZeroIsOnLine(p: Point, a: Point, b: Point)
    ensures Distance2(p, a, b) <= 0.0 <==> OnLine(p, a, b)
  {
    if Length2(a, b) == 0.0 {
      NoDistance(a, b);
      NoDistance(a, p);
      if a == p {
        assert Along(a, b, 0.0) == p;
      }
      forall t ensures Along(a, b, t) == a {
      }
    } else {
      DistanceIsToTheLine(p, a, b, 0.0);
      forall t ensures Length2(Along(a, b, t), p) <= 0.0 <==> Along(a, b, t) == p {
        NoDistance(Along(a, b, t), p);
      }
    }
  }

  /** Every vertex skipped between two consecutive kept ones lies on the line through them. */
  ghost predicate GapsOnLine(ps: seq<Point>, ks: seq<nat>)
    requires Selects(ks, |ps|)
  {
    forall j, i :: 0 < j < |ks| && ks[j - 1] < i < ks[j] && ks[j] < |ps| ==>
      OnLine(ps[i], ps[ks[j - 1]], ps[ks[j]])
  }

  /** `out` is the line without some vertices that are redundant: on the line through the kept ones around them. */
  ghost predicate OnlyRedundantDropped(ps: seq<Point>, out: seq<Point>) {
    exists ks :: Selects(ks, |ps|) && Kept(ps, ks, out) && GapsOnLine(ps, ks)
  }

  lemma {:induction false} AllKept(ps: seq<Point>)
    requires |ps| >= 2
    ensures OnlyRedundantDropped(ps, ps)
  {
    var ks: seq<nat> := seq(|ps|, j requires 0 <= j < |ps| => j);
    assert Selects(ks, |ps|) && Kept(ps, ks, ps) && GapsOnLine(ps, ks);
  }

  lemma {:induction false} ExactDropsRedundant(ps: seq<Point>)
    requires |ps| >= 2
    ensures OnlyRedundantDropped(ps, Rdp(ps, 0.0, Distance2))
  {
    var ks := RdpStaysWithinTolerance(ps, 0.0, Distance2);
    forall j, i | 0 < j < |ks| && ks[j - 1] < i < ks[j] && ks[j] < |ps|
      ensures OnLine(ps[i], ps[ks[j - 1]], ps[ks[j]])
    {
      DistanceZeroIsOnLine(ps[i], ps[ks[j - 1]], ps[ks[j]]);
    }
  }

  function Tent(h: real): seq<Point> {
    [Point(0.0, 0.0), Point(1.0, h), Point(2.0, 0.0)]
  }

  lemma {:induction false} TentHeight(h: real)
    ensures var ps := Tent(h);
      Distance2(ps[1], ps[0], ps[2]) == Square(h)
  {
    var ps := Tent(h);
    assert Length2(ps[0], ps[2]) == 4.0;
    assert Cross(ps[1], ps[0], ps[2]) == -2.0 * h;
    assert (-2.0 * h) * (-2.0 * h) == 4.0 * (h * h);
  }

  lemma {:induction false} TentScan(h: real)
    ensures Scan(Tent(h), 2, Distance2).0 <= Square(h)
  {
    TentHeight(h);
    SquareFacts(h);
    assert Scan(Tent(h), 1, Distance2) == (0.0, 0);
    assert Chord(Tent(h), 1, Distance2) == Square(h);
  }

  /** A tent as high as the tolerance loses its top, which is not on the line. */
  lemma {:induction false} TentIsFlattened(h: real)
    requires h > 0.0
    ensures Square(h) >= 0.0 && Rdp(Tent(h), Square(h), Distance2) == [Point(0.0, 0.0), Point(2.0, 0.0)]
    ensures !OnlyRedundantDropped(Tent(h), [Point(0.0, 0.0), Point(2.0, 0.0)])
  {
    var ps, out := Tent(h), [Point(0.0, 0.0), Point(2.0, 0.0)];
    TentScan(h);
    SquareFacts(h);
    assert !Splits(ps, Square(h), Distance2);
    TentHeight(h);
    DistanceZeroIsOnLine(ps[1], ps[0], ps[2]);
    forall ks | Selects(ks, |ps|) && Kept(ps, ks, out) ensures !GapsOnLine(ps, ks) {
      assert ks[0] == 0 && ks[1] == 2;
    }
  }

  /** Of every line on which it ends, the recursion drops only redundant vertices. */
  ghost predicate DropsOnlyRedundant(tolerance: real) {
    forall ps :: |ps| > 2 && SplittingEnds(ps, tolerance) ==>
      OnlyRedundantDropped(ps, Simplification(ps, Limit(tolerance), Distance2))
  }

  lemma {:induction false} NothingElseDropped(ps: seq<Point>, tolerance: real)
    requires tolerance <= 0.0 && |ps| > 2 && SplittingEnds(ps, tolerance)
    ensures OnlyRedundantDropped(ps, Simplification(ps, Limit(tolerance), Distance2))
  {
    if tolerance < 0.0 {
      AllKept(ps);
    } else {
      ExactDropsRedundant(ps);
    }
  }

  lemma {:induction false} TentDropped(tolerance: real)
    requires tolerance > 0.0
    ensures SplittingEnds(Tent(tolerance), tolerance)
    ensures !OnlyRedundantDropped(Tent(tolerance), Simplification(Tent(tolerance), Limit(tolerance), Distance2))
  {
    TentIsFlattened(tolerance);
    SquareFacts(tolerance);
    assert Limit(tolerance) == Square(tolerance);
  }

  /** That is so exactly when the tolerance is not positive. */
  lemma {:induction false} OnlyRedundantExactly(tolerance: real)
    ensures DropsOnlyRedundant(tolerance) <==> tolerance <= 0.0
  {
    if tolerance <= 0.0 {
      forall ps | |ps| > 2 && SplittingEnds(ps, tolerance)
        ensures OnlyRedundantDropped(ps, Simplification(ps, Limit(tolerance), Distance2))
      {
        NothingElseDropped(ps, tolerance);
      }
    } else {
      TentDropped(tolerance);
    }
  }

  // ---- thinning ----

  /** Python's `round(n / m)`: to the nearest integer, halves to the even one. */
  function RoundedQuotient(n: nat, m: nat): nat
    requires m > 0
  {
    var q, r := n / m, n % m;
    if 2 * r < m || (2 * r == m && q % 2 == 0) then q else q + 1
  }

  /** `max(2, round(n / m))`. */
  function Stride(n: nat, m: int): nat
    requires m != 0
  {
    if m < 0 then 2
    else if RoundedQuotient(n, m) < 2 then 2
    else RoundedQuotient(n, m)
  }

  /** The indices that the slice `[::step]` takes from `from` on. */
  function Multiples(from: nat, n: nat, step: nat): seq<nat>
    requires step >= 2
    decreases n - from
  {
    if from >= n then [] else [from] + Multiples(from + step, n, step)
  }

  /** The stride is the nearest whole number to `n / m`, an even one when two are as near, but at least two. */
  lemma {:induction false} StrideIsNearest(n: nat, m: nat)
    requires m > 0
    ensures var q := RoundedQuotient(n, m);
      && q * m - m <= 2 * n - q * m <= q * m + m
      && (2 * n == 2 * (q * m) + m || 2 * n == 2 * (q * m) - m ==> q % 2 == 0)
      && Stride(n, m) == (if q < 2 then 2 else q)
  {
    var q := n / m;
    assert n == q * m + n % m;
    assert (q + 1) * m == q * m + m;
  }

  function Taken<T>(s: seq<T>, ks: seq<nat>): seq<T>
    requires forall j :: 0 <= j < |ks| ==> ks[j] < |s|
  {
    seq(|ks|, j requires 0 <= j < |ks| => s[ks[j]])
  }

  /** The positions kept by one round of thinning: every step-th, and the last once more. */
  function Thinned(n: nat, m: int): seq<nat>
    requires m != 0 && n > 0
  {
    Multiples(0, n, Stride(n, m)) + [n - 1]
  }

  lemma {:induction false} MultiplesBounds(from: nat, n: nat, step: nat)
    requires step >= 2
    ensures var ks := Multiples(from, n, step);
      && (forall j :: 0 <= j < |ks| ==> from <= ks[j] < n)
      && (from < n ==> |ks| >= 1 && ks[0] == from && 2 * |ks| <= n - from + 1)
      && (from + step < n ==> |ks| >= 2)
    decreases n - from
  {
    if from < n {
      MultiplesBounds(from + step, n, step);
    }
  }

  lemma {:induction false} MultiplesFacts(from: nat, n: nat, step: nat)
    requires step >= 2
    ensures var ks := Multiples(from, n, step);
      && (forall j :: 0 <= j < |ks| ==> from <= ks[j] < n)
      && (forall i :: 0 < i < |ks| ==> ks[i - 1] <= ks[i])
      && (from < n ==> |ks| >= 1 && ks[0] == from && 2 * |ks| <= n - from + 1)
      && (from + step < n ==> |ks| >= 2)
    decreases n - from
  {
    MultiplesBounds(from, n, step);
    if from < n {
      var ks, rest := Multiples(from, n, step), Multiples(from + step, n, step);
      MultiplesFacts(from + step, n, step);
      forall i | 0 < i < |ks| ensures ks[i - 1] <= ks[i] {
        assert ks[i] == rest[i - 1];
        if i > 1 {
          assert ks[i - 1] == rest[i - 2];
        }
      }
    }
  }

  /** The slice takes the multiples of the step, and all of them. */
  lemma {:induction false} MultiplesAt(from: nat, n: nat, step: nat)
    requires step >= 2
    ensures var ks := Multiples(from, n, step);
      && (forall j :: 0 <= j < |ks| ==> ks[j] == from + j * step)
      && from + |ks| * step >= n
    decreases n - from
  {
    if from < n {
      var ks, rest := Multiples(from, n, step), Multiples(from + step, n, step);
      MultiplesAt(from + step, n, step);
      forall j | 0 <= j < |ks| ensures ks[j] == from + j * step {
        if j > 0 {
          assert ks[j] == rest[j - 1] == from + step + (j - 1) * step;
          assert step + (j - 1) * step == j * step;
        }
      }
      assert |rest| * step + step == |ks| * step;
    }
  }

  /** Positions of an `n`-vertex line that never go back, from its first vertex to its last. */
  ghost predicate Draws(ks: seq<nat>, n: nat) {
    && |ks| >= 2 && ks[0] == 0 && ks[|ks| - 1] == n - 1
    && (forall j :: 0 <= j < |ks| ==> ks[j] < n)
    && forall i :: 0 < i < |ks| ==> ks[i - 1] <= ks[i]
  }

  /** One round keeps the ends and the order; with a cap of three or more it shortens the line,
      with a smaller one it never gets the line down to the cap. */
  lemma {:induction false} OneRound(n: nat, m: int)
    requires m != 0 && n >= 2 && n > m
    ensures Draws(Thinned(n, m), n)
    ensures m >= 3 ==> |Thinned(n, m)| < n
    ensures m < 3 ==> |Thinned(n, m)| > m
  {
    var step := Stride(n, m);
    MultiplesFacts(0, n, step);
    var ks, out := Multiples(0, n, step), Thinned(n, m);
    forall i | 0 < i < |out| ensures out[i - 1] <= out[i] {
      if i < |ks| {
        assert out[i - 1] == ks[i - 1] && out[i] == ks[i];
      }
    }
  }

  function Thin<T>(s: seq<T>, m: int): (out: seq<T>)
    requires m >= 3
    ensures |out| <= m
    decreases |s|
  {
    if |s| <= m then s
    else
      OneRound(|s|, m);
      Thin(Taken(s, Thinned(|s|, m)), m)
  }

  /** Thinning draws every vertex from the line it is given, never going back, and keeps both ends. */
  lemma {:induction false} ThinDraws<T>(s: seq<T>, m: int) returns (ks: seq<nat>)
    requires m >= 3 && |s| >= 2
    ensures Draws(ks, |s|) && Thin(s, m) == Taken(s, ks)
    decreases |s|
  {
    if |s| <= m {
      ks := seq(|s|, j requires 0 <= j < |s| => j);
      assert Taken(s, ks) == s;
    } else {
      OneRound(|s|, m);
      var js := Thinned(|s|, m);
      var rest := ThinDraws(Taken(s, js), m);
      ks := Taken(js, rest);
      DrawsCompose(js, |s|, rest);
      assert Taken(Taken(s, js), rest) == Taken(s, ks);
    }
  }

  lemma {:induction false} DrawsCompose(js: seq<nat>, n: nat, ks: seq<nat>)
    requires Draws(js, n) && Draws(ks, |js|)
    ensures Draws(Taken(js, ks), n)
  {
    var out := Taken(js, ks);
    forall i | 0 < i < |out| ensures out[i - 1] <= out[i] {
      NeverBack(js, n, ks[i - 1], ks[i]);
    }
  }

  lemma {:induction false} NeverBack(js: seq<nat>, n: nat, i: nat, j: nat)
    requires Draws(js, n) && i <= j < |js|
    ensures js[i] <= js[j]
    decreases j
  {
    if i < j {
      NeverBack(js, n, i, j - 1);
    }
  }

  // ---- simplify_line ----

  /** The loop of `simplify_line` ends on this line exactly under this condition. */
  predicate ThinningEnds(n: nat, m: int) {
    n <= m || m >= 3
  }

  /** Where it does not end, every round leaves a line to which the same applies. */
  lemma {:induction false} ThinningIsStuck(n: nat, m: int)
    requires n >= 2 && m != 0 && !ThinningEnds(n, m)
    ensures |Thinned(n, m)| >= 2 && !ThinningEnds(|Thinned(n, m)|, m)
  {
    OneRound(n, m);
  }

  function Capped<T>(line: seq<T>, maxPoints: int): (out: seq<T>)
    requires ThinningEnds(|line|, maxPoints)
    ensures |out| <= maxPoints
  {
    if |line| <= maxPoints then line else Thin(line, maxPoints)
  }

  /** What the squared distances are compared with; a negative tolerance is below all of them. */
  function Limit(tolerance: real): real {
    if tolerance < 0.0 then -1.0 else Square(tolerance)
  }

  /** The recursion of `simplify_line` ends on this line exactly under this condition. */
  predicate SplittingEnds(coords: seq<Point>, tolerance: real) {
    tolerance >= 0.0 || NowhereFlat(coords, Distance2)
  }

  /** Both the recursion and the loop end. */
  predicate Ends(coords: seq<Point>, tolerance: real, maxPoints: int) {
    |coords| <= 2 ||
    (&& SplittingEnds(coords, tolerance)
     && ThinningEnds(|Simplification(coords, Limit(tolerance), Distance2)|, maxPoints))
  }

  function Simplified(coords: seq<Point>, tolerance: real, maxPoints: int): seq<Point>
    requires Ends(coords, tolerance, maxPoints)
  {
    if |coords| <= 2 then coords else Capped(Simplification(coords, Limit(tolerance), Distance2), maxPoints)
  }

  /** A line that fits stays as it is. */
  ghost predicate ThinnedTo<T(!new)>(line: seq<T>, maxPoints: int, out: seq<T>) {
    if |line| <= maxPoints then out == line else maxPoints >= 3 && out == Thin(line, maxPoints)
  }

  /** `line` is part of `coords`, with both ends, and every vertex dropped between two consecutive ones of it is within
      the tolerance of the line through them. */
  ghost predicate WithinTolerance(coords: seq<Point>, tolerance: real, line: seq<Point>) {
    exists ks ::
      Selects(ks, |coords|) && Kept(coords, ks, line) && GapsWithin(coords, ks, tolerance * tolerance, Distance2)
  }

  /** The recursion drops nothing farther off than the tolerance; below nought it drops nothing. */
  lemma {:induction false} DroppedAreNear(coords: seq<Point>, tolerance: real)
    requires |coords| > 2 && SplittingEnds(coords, tolerance)
    ensures var line := Simplification(coords, Limit(tolerance), Distance2);
      && (tolerance >= 0.0 ==> WithinTolerance(coords, tolerance, line))
      && (tolerance < 0.0 ==> line == coords)
  {
    if tolerance >= 0.0 {
      SquareFacts(tolerance);
      var ks := RdpStaysWithinTolerance(coords, Limit(tolerance), Distance2);
      assert Limit(tolerance) == tolerance * tolerance;
    }
  }

  /** Two vertices stay as they are; of more, those that are near are dropped, or none for a negative tolerance, and
      then the line is thinned if it does not fit. */
  ghost predicate IsSimplified(coords: seq<Point>, tolerance: real, maxPoints: int, out: seq<Point>) {
    if |coords| <= 2 then out == coords
    else if tolerance < 0.0 then ThinnedTo(coords, maxPoints, out)
    else exists line :: WithinTolerance(coords, tolerance, line) && ThinnedTo(line, maxPoints, out)
  }

  lemma {:induction false} SimplifiedIsThinned(coords: seq<Point>, tolerance: real, maxPoints: int)
    requires |coords| > 2 && Ends(coords, tolerance, maxPoints)
    ensures ThinnedTo(
      Simplification(coords, Limit(tolerance), Distance2), maxPoints, Simplified(coords, tolerance, maxPoints))
  {
  }

  lemma {:induction false} NearThenThinned(
      coords: seq<Point>, tolerance: real, maxPoints: int, line: seq<Point>, out: seq<Point>)
    requires |coords| > 2 && ThinnedTo(line, maxPoints, out)
    requires if tolerance < 0.0 then line == coords else WithinTolerance(coords, tolerance, line)
    ensures IsSimplified(coords, tolerance, maxPoints, out)
  {
  }

  lemma {:induction false} SimplifiedMeans(coords: seq<Point>, tolerance: real, maxPoints: int, out: seq<Point>)
    requires |coords| > 2 && Ends(coords, tolerance, maxPoints) && out == Simplified(coords, tolerance, maxPoints)
    ensures IsSimplified(coords, tolerance, maxPoints, out)
  {
    var line := Simplification(coords, Limit(tolerance), Distance2);
    DroppedAreNear(coords, tolerance);
    SimplifiedIsThinned(coords, tolerance, maxPoints);
    NearThenThinned(coords, tolerance, maxPoints, line, out);
  }

  method SimplifyLine(coords: seq<Point>, tolerance: real, maxPoints: int) returns (out: seq<Point>)
    requires Ends(coords, tolerance, maxPoints)
    ensures out == Simplified(coords, tolerance, maxPoints)
    ensures |coords| > 2 ==> |out| <= maxPoints
    ensures IsSimplified(coords, tolerance, maxPoints, out)
  {
    if |coords| <= 2 {
      return coords;
    }
    out := SimplifyByDistance(coords, Limit(tolerance));
    ghost var line := out;
    while |out| > maxPoints
      invariant |out| >= 2
      invariant maxPoints < 3 ==> out == line && |line| <= maxPoints
      invariant maxPoints >= 3 ==> Thin(out, maxPoints) == Thin(line, maxPoints)
      decreases |out|
    {
      OneRound(|out|, maxPoints);
      MultiplesFacts(0, |out|, Stride(|out|, maxPoints));
      var step := Stride(|out|, maxPoints);
      assert Taken(out, Thinned(|out|, maxPoints)) == Taken(out, Multiples(0, |out|, step)) + [out[|out| - 1]];
      out := Taken(out, Multiples(0, |out|, step)) + [out[|out| - 1]];
    }
    SimplifiedMeans(coords, tolerance, maxPoints, out);
  }

  /** The whole of `simplify_line`: both ends stay, every vertex comes from the input in order, and the
      cap is met. */
  lemma {:induction false} SimplifiedDraws(coords: seq<Point>, tolerance: real, maxPoints: int)
    returns (ks: seq<nat>)
    requires |coords| > 2 && Ends(coords, tolerance, maxPoints)
    ensures Draws(ks, |coords|) && Simplified(coords, tolerance, maxPoints) == Taken(coords, ks)
    ensures |ks| <= maxPoints
  {
    var limit := Limit(tolerance);
    var line := Simplification(coords, limit, Distance2);
    var js := SimplificationDraws(coords, limit);
    if |line| <= maxPoints {
      ks := js;
    } else {
      ks := ThinnedDraws(coords, js, line, maxPoints);
    }
  }

  lemma {:induction false} SimplificationDraws(coords: seq<Point>, limit: real) returns (js: seq<nat>)
    requires |coords| > 2 && (limit >= 0.0 || NowhereFlat(coords, Distance2))
    ensures Draws(js, |coords|) && Simplification(coords, limit, Distance2) == Taken(coords, js)
  {
    if limit >= 0.0 {
      js := RdpStaysWithinTolerance(coords, limit, Distance2);
      KeptIsTaken(coords, js, Rdp(coords, limit, Distance2));
    } else {
      js := seq(|coords|, j requires 0 <= j < |coords| => j);
      assert Taken(coords, js) == coords;
    }
  }

  lemma {:induction false} KeptIsTaken<P>(ps: seq<P>, ks: seq<nat>, out: seq<P>)
    requires Selects(ks, |ps|) && Kept(ps, ks, out)
    ensures Draws(ks, |ps|) && out == Taken(ps, ks)
  {
  }

  lemma {:induction false} ThinnedDraws<T>(s: seq<T>, js: seq<nat>, line: seq<T>, m: int) returns (ks: seq<nat>)
    requires Draws(js, |s|) && line == Taken(s, js) && m >= 3
    ensures Draws(ks, |s|) && Thin(line, m) == Taken(s, ks)
  {
    var rest := ThinDraws(line, m);
    ks := Taken(js, rest);
    DrawsCompose(js, |s|, rest);
    assert Taken(Taken(s, js), rest) == Taken(s, ks);
  }
}
