// Vector arithmetic over the reals, nearest centroids, and cluster assignment.
//
// Products and distances run over the shorter of two vectors; the square root is a parameter. The
// nearest centroid is the first of greatest cosine; assigning ids one by one to their nearest
// centroids gives clusters that partition them.

module Vectors {
  import opened ByteStrings

  type Vec = seq<real>

  // ---------- Similarities ----------

  function Shorter(u: Vec, v: Vec): nat {
    if |u| < |v| then |u| else |v|
  }

  /** The sum of products over the first n places. */
  function DotUpTo(u: Vec, v: Vec, n: nat): real
    requires n <= |u| && n <= |v|
  {
    if n == 0 then 0.0 else DotUpTo(u, v, n - 1) + u[n - 1] * v[n - 1]
  }

  /** zip stops at the shorter vector. */
  function Dot(u: Vec, v: Vec): real {
    DotUpTo(u, v, Shorter(u, v))
  }

  /** The square root is a parameter. */
  type Root = real -> real

  function Norm(sqrt: Root, u: Vec): real {
    sqrt(Dot(u, u))
  }

  function Cosine(sqrt: Root, u: Vec, v: Vec): real {
    var a, b := Norm(sqrt, u), Norm(sqrt, v);
    if a == 0.0 || b == 0.0 then 0.0 else Dot(u, v) / (a * b)
  }

  function Square(x: real): real {
    x * x
  }

  function SquaresUpTo(u: Vec, v: Vec, n: nat): real
    requires n <= |u| && n <= |v|
  {
    if n == 0 then 0.0 else SquaresUpTo(u, v, n - 1) + Square(u[n - 1] - v[n - 1])
  }

  function Distance(sqrt: Root, u: Vec, v: Vec): real {
    sqrt(SquaresUpTo(u, v, Shorter(u, v)))
  }

  datatype Metric = CosineMetric | EuclideanMetric | DotMetric | UnknownMetric

  function Similarity(sqrt: Root, u: Vec, v: Vec, metric: Metric): real
    requires metric != UnknownMetric
  {
    match metric
    case CosineMetric => Cosine(sqrt, u, v)
    case EuclideanMetric => Distance(sqrt, u, v)
    case DotMetric => Dot(u, v)
  }

  // ---------- What the metrics are ----------

  lemma SquareOf(x: real)
    ensures Square(x) >= 0.0 && (Square(x) == 0.0 <==> x == 0.0)
  {
    assert Square(0.0) == 0.0;
    hide Square;
    if x > 0.0 {
      PositiveSquare(x);
    } else if x < 0.0 {
      PositiveSquare(-x);
      NegatedSquare(x);
    }
  }

  lemma PositiveSquare(x: real)
    requires x > 0.0
    ensures Square(x) > 0.0
  {
    ProductIsPositive(x, x, Square(x));
  }

  lemma ProductIsPositive(x: real, y: real, product: real)
    requires x > 0.0 && y > 0.0 && product == x * y
    ensures product > 0.0
  {
  }

  lemma NegatedSquare(x: real)
    ensures Square(-x) == Square(x)
  {
  }

  lemma PositiveProduct(x: real, y: real)
    requires x > 0.0 && y > 0.0
    ensures x * y > 0.0
  {
  }

  lemma {:induction false} SymmetricUpTo(u: Vec, v: Vec, n: nat)
    requires n <= |u| && n <= |v|
    ensures DotUpTo(u, v, n) == DotUpTo(v, u, n) && SquaresUpTo(u, v, n) == SquaresUpTo(v, u, n)
  {
    if n > 0 {
      SymmetricUpTo(u, v, n - 1);
    }
  }

  /** Every metric is symmetric. */
  lemma MetricsAreSymmetric(sqrt: Root, u: Vec, v: Vec)
    ensures Dot(u, v) == Dot(v, u) && Distance(sqrt, u, v) == Distance(sqrt, v, u)
    ensures Cosine(sqrt, u, v) == Cosine(sqrt, v, u)
  {
    hide DotUpTo, SquaresUpTo;
    SymmetricUpTo(u, v, Shorter(u, v));
    assert Norm(sqrt, u) * Norm(sqrt, v) == Norm(sqrt, v) * Norm(sqrt, u);
  }

  /** a * u + b * v */
  function Combined(a: real, u: Vec, b: real, v: Vec): (r: Vec)
    requires |u| == |v|
    ensures |r| == |u|
  {
    seq(|u|, i requires 0 <= i < |u| => a * u[i] + b * v[i])
  }

  /** The vector with a one at place i. */
  function Unit(n: nat, i: nat): (r: Vec)
    ensures |r| == n
  {
    seq(n, j => if j == i then 1.0 else 0.0)
  }

  lemma {:induction false} UnitUpTo(u: Vec, i: nat, n: nat)
    requires i < |u| && n <= |u|
    ensures DotUpTo(u, Unit(|u|, i), n) == if i < n then u[i] else 0.0
  {
    if n > 0 {
      UnitUpTo(u, i, n - 1);
    }
  }

  lemma {:induction false} LinearUpTo(a: real, u: Vec, b: real, v: Vec, w: Vec, n: nat)
    requires |u| == |v| == |w| && n <= |u|
    ensures DotUpTo(Combined(a, u, b, v), w, n) == a * DotUpTo(u, w, n) + b * DotUpTo(v, w, n)
  {
    if n > 0 {
      LinearUpTo(a, u, b, v, w, n - 1);
      Expand(a, u[n - 1], b, v[n - 1], w[n - 1], DotUpTo(u, w, n - 1), DotUpTo(v, w, n - 1));
    }
  }

  lemma Expand(a: real, x: real, b: real, y: real, z: real, s: real, t: real)
    ensures a * s + b * t + (a * x + b * y) * z == a * (s + x * z) + b * (t + y * z)
  {
  }

  /** The dot product is linear, and with a unit vector it is the coordinate. */
  lemma DotIsLinear(a: real, u: Vec, b: real, v: Vec, w: Vec, i: nat)
    requires |u| == |v| == |w|
    ensures Dot(Combined(a, u, b, v), w) == a * Dot(u, w) + b * Dot(v, w)
    ensures i < |u| ==> Dot(u, Unit(|u|, i)) == u[i]
  {
    LinearUpTo(a, u, b, v, w, |u|);
    if i < |u| {
      UnitUpTo(u, i, |u|);
    }
  }

  lemma {:induction false} SquaresAreDots(u: Vec, v: Vec, n: nat)
    requires |u| == |v| && n <= |u|
    ensures SquaresUpTo(u, v, n) == DotUpTo(u, u, n) - 2.0 * DotUpTo(u, v, n) + DotUpTo(v, v, n)
  {
    if n > 0 {
      SquaresAreDots(u, v, n - 1);
      Binomial(u[n - 1], v[n - 1]);
    }
  }

  lemma Binomial(x: real, y: real)
    ensures Square(x - y) == x * x - 2.0 * (x * y) + y * y
  {
  }

  lemma {:induction false} SelfDotIsPositive(u: Vec, n: nat)
    requires n <= |u|
    ensures DotUpTo(u, u, n) >= 0.0
  {
    if n > 0 {
      SelfDotIsPositive(u, n - 1);
      SquareOf(u[n - 1]);
    }
  }

  lemma {:induction false} SquaresVanish(u: Vec, v: Vec, n: nat)
    requires |u| == |v| && n <= |u|
    ensures SquaresUpTo(u, v, n) >= 0.0 && (SquaresUpTo(u, v, n) == 0.0 <==> u[..n] == v[..n])
  {
    if n > 0 {
      SquaresVanish(u, v, n - 1);
      SquareOf(u[n - 1] - v[n - 1]);
      hide Square;
      assert u[..n] == u[..n - 1] + [u[n - 1]] && v[..n] == v[..n - 1] + [v[n - 1]];
    }
  }

  /** sqrt is the root of every number from zero on. */
  ghost predicate IsRoot(sqrt: Root) {
    forall x :: x >= 0.0 ==> sqrt(x) >= 0.0 && sqrt(x) * sqrt(x) == x
  }

  /** The distance is the root of the summed squares, which dot products give; it is zero between
      equal vectors only. */
  lemma DistanceIsMetric(sqrt: Root, u: Vec, v: Vec)
    requires IsRoot(sqrt) && |u| == |v|
    ensures Distance(sqrt, u, v) >= 0.0 && (Distance(sqrt, u, v) == 0.0 <==> u == v)
    ensures Square(Distance(sqrt, u, v)) == Dot(u, u) - 2.0 * Dot(u, v) + Dot(v, v)
  {
    hide DotUpTo, SquaresUpTo;
    SquaresAreDots(u, v, |u|);
    SquaresVanish(u, v, |u|);
    assert u[..|u|] == u && v[..|v|] == v;
    var x := SquaresUpTo(u, v, |u|);
    assert sqrt(x) >= 0.0 && Square(sqrt(x)) == x;
    SquareOf(sqrt(x));
    hide Square;
  }

  /** The inequality of Cauchy and Schwarz. */
  lemma DotIsBounded(u: Vec, v: Vec)
    requires |u| == |v|
    ensures Dot(u, v) * Dot(u, v) <= Dot(u, u) * Dot(v, v)
    ensures Dot(u, u) >= 0.0 && Dot(v, v) >= 0.0
  {
    hide DotUpTo, Combined;
    SelfDotIsPositive(u, |u|);
    SelfDotIsPositive(v, |v|);
    var a, b, c := Dot(u, u), Dot(u, v), Dot(v, v);
    SymmetricUpTo(u, v, |u|);
    if c > 0.0 {
      var w := Combined(c, u, -b, v);
      SymmetricUpTo(u, w, |u|);
      SymmetricUpTo(v, w, |u|);
      LinearUpTo(c, u, -b, v, u, |u|);
      LinearUpTo(c, u, -b, v, v, |u|);
      LinearUpTo(c, u, -b, v, w, |u|);
      SelfDotIsPositive(w, |u|);
      Discriminant(a, b, c);
    } else {
      SelfDotVanishes(u, v, |u|);
    }
  }

  lemma Discriminant(a: real, b: real, c: real)
    requires c > 0.0 && c * (c * a + -b * b) + -b * (c * b + -b * c) >= 0.0
    ensures b * b <= a * c
  {
    var x := c * a - b * b;
    assert c * b + -b * c == 0.0;
    assert c * (c * a + -b * b) + -b * (c * b + -b * c) == c * x == -(c * -x);
    if x < 0.0 {
      PositiveProduct(c, -x);
    }
  }

  lemma {:induction false} SelfDotVanishes(u: Vec, v: Vec, n: nat)
    requires |u| == |v| && n <= |u| && DotUpTo(v, v, n) <= 0.0
    ensures DotUpTo(u, v, n) == 0.0
  {
    if n > 0 {
      SelfDotIsPositive(v, n - 1);
      var x := v[n - 1];
      SquareOf(x);
      SelfDotVanishes(u, v, n - 1);
    }
  }

  /** A cosine lies between -1 and 1, and times both norms it is the dot product. */
  lemma CosineIsBounded(sqrt: Root, u: Vec, v: Vec)
    requires IsRoot(sqrt) && |u| == |v|
    ensures -1.0 <= Cosine(sqrt, u, v) <= 1.0
    ensures Cosine(sqrt, u, v) * (Norm(sqrt, u) * Norm(sqrt, v)) == Dot(u, v)
  {
    hide Dot;
    DotIsBounded(u, v);
    var a, b, d := Norm(sqrt, u), Norm(sqrt, v), Dot(u, v);
    assert a == sqrt(Dot(u, u)) && b == sqrt(Dot(v, v));
    Rooted(a, b, d);
    if a == 0.0 || b == 0.0 {
      assert a * b == 0.0;
    } else {
      PositiveProduct(a, b);
      Ratio(d, a * b);
      CosineIs(sqrt, u, v);
    }
  }

  lemma CosineIs(sqrt: Root, u: Vec, v: Vec)
    requires Norm(sqrt, u) != 0.0 && Norm(sqrt, v) != 0.0
    ensures Cosine(sqrt, u, v) == Dot(u, v) / (Norm(sqrt, u) * Norm(sqrt, v))
  {
    hide Dot, Norm;
  }

  lemma Rooted(a: real, b: real, d: real)
    requires a >= 0.0 && b >= 0.0 && d * d <= (a * a) * (b * b)
    ensures -(a * b) <= d <= a * b
  {
    var c := a * b;
    if a > 0.0 && b > 0.0 {
      PositiveProduct(a, b);
    }
    assert c >= 0.0 && c * c == (a * a) * (b * b);
    var p, q, r, t := d - c, d + c, -d - c, -d + c;
    assert p * q == d * d - c * c && r * t == d * d - c * c;
    if d > c {
      PositiveProduct(p, q);
    } else if d < -c {
      PositiveProduct(r, t);
    }
  }

  lemma Ratio(d: real, c: real)
    requires c > 0.0 && -c <= d <= c
    ensures -1.0 <= d / c <= 1.0 && (d / c) * c == d && (d == c ==> d / c == 1.0)
  {
    var q := d / c;
    assert q * c == d;
    if q > 1.0 {
      PositiveProduct(q - 1.0, c);
    } else if q < -1.0 {
      PositiveProduct(-1.0 - q, c);
    }
  }

  /** Nothing is nearer to a vector than itself: its cosine is one, its distance zero. */
  lemma NoneIsNearer(sqrt: Root, u: Vec, v: Vec)
    requires IsRoot(sqrt) && |u| == |v|
    ensures Dot(u, u) != 0.0 ==> Cosine(sqrt, u, v) <= Cosine(sqrt, u, u) == 1.0
    ensures Distance(sqrt, u, u) == 0.0 <= Distance(sqrt, u, v)
  {
    hide Dot, Distance;
    CosineIsBounded(sqrt, u, v);
    DistanceIsMetric(sqrt, u, v);
    DistanceIsMetric(sqrt, u, u);
    SelfDotIsPositive(u, |u|);
    DotIsBounded(u, u);
    var a := Norm(sqrt, u);
    assert a * a == Dot(u, u);
    if Dot(u, u) != 0.0 {
      assert a != 0.0;
      Ratio(a * a, a * a);
      assert Cosine(sqrt, u, u) == (a * a) / (a * a);
    }
  }

  // ---------- The nearest centroid ----------

  /** max(range(n), key=...): the first index with the greatest cosine. */
  function Best(sqrt: Root, v: Vec, centroids: seq<Vec>): (best: nat)
    requires centroids != []
    ensures best < |centroids|
    ensures forall i :: 0 <= i < |centroids| ==> Cosine(sqrt, v, centroids[i]) <= Cosine(sqrt, v, centroids[best])
    ensures forall i :: 0 <= i < best ==> Cosine(sqrt, v, centroids[i]) < Cosine(sqrt, v, centroids[best])
  {
    if |centroids| == 1 then 0
    else
      var n := |centroids| - 1;
      var best := Best(sqrt, v, centroids[..n]);
      if Cosine(sqrt, v, centroids[n]) > Cosine(sqrt, v, centroids[best]) then n else best
  }

  method Nearest(sqrt: Root, v: Vec, centroids: seq<Vec>) returns (best: nat)
    requires centroids != []
    ensures best == Best(sqrt, v, centroids)
  {
    hide Cosine;
    best := 0;
    for i := 1 to |centroids|
      invariant best == Best(sqrt, v, centroids[..i])
    {
      assert centroids[..i + 1][..i] == centroids[..i];
      if Cosine(sqrt, v, centroids[i]) > Cosine(sqrt, v, centroids[best]) {
        best := i;
      }
    }
    assert centroids[..|centroids|] == centroids;
  }

  // ---------- Clusters ----------

  datatype Entry = Entry(id: Bytes, v: Vec)

  /** The ids whose nearest centroid is c, in order. */
  function Assigned(sqrt: Root, all: seq<Entry>, centroids: seq<Vec>, c: nat): seq<Bytes>
    requires centroids != []
  {
    if all == [] then []
    else
      var last := all[|all| - 1];
      Assigned(sqrt, all[..|all| - 1], centroids, c) + if Best(sqrt, last.v, centroids) == c then [last.id] else []
  }

  /** The vectors whose nearest centroid is c, in order. */
  function Points(sqrt: Root, all: seq<Entry>, centroids: seq<Vec>, c: nat): seq<Vec>
    requires centroids != []
  {
    if all == [] then []
    else
      var last := all[|all| - 1];
      Points(sqrt, all[..|all| - 1], centroids, c) + if Best(sqrt, last.v, centroids) == c then [last.v] else []
  }

  ghost predicate IdsDiffer(all: seq<Entry>) {
    forall i, j :: 0 <= i < j < |all| ==> all[i].id != all[j].id
  }

  /** Each id lies once in the cluster of its nearest centroid, and in no other cluster. */
  lemma {:induction false} ClustersPartition(sqrt: Root, all: seq<Entry>, centroids: seq<Vec>, c: nat, i: nat)
    requires centroids != [] && IdsDiffer(all) && i < |all|
    ensures multiset(Assigned(sqrt, all, centroids, c))[all[i].id]
            == if Best(sqrt, all[i].v, centroids) == c then 1 else 0
  {
    hide Best;
    var n := |all| - 1;
    if i < n {
      ClustersPartition(sqrt, all[..n], centroids, c, i);
      assert all[i].id != all[n].id;
    } else {
      OnlyListedIds(sqrt, all[..n], centroids, c, all[n].id);
    }
    hide IdsDiffer;
  }

  /** A cluster holds no id that is not listed. */
  lemma {:induction false} OnlyListedIds(sqrt: Root, all: seq<Entry>, centroids: seq<Vec>, c: nat, id: Bytes)
    requires centroids != [] && forall i :: 0 <= i < |all| ==> all[i].id != id
    ensures id !in Assigned(sqrt, all, centroids, c)
  {
    hide Best;
    if all != [] {
      OnlyListedIds(sqrt, all[..|all| - 1], centroids, c, id);
    }
  }

  // ---------- Moving the centroids ----------

  function Column(points: seq<Vec>, d: nat): real
    requires forall i :: 0 <= i < |points| ==> d < |points[i]|
  {
    if points == [] then 0.0 else Column(points[..|points| - 1], d) + points[|points| - 1][d]
  }

  function Mean(points: seq<Vec>, dim: nat): (r: Vec)
    requires points != [] && forall i :: 0 <= i < |points| ==> |points[i]| == dim
    ensures |r| == dim
  {
    seq(dim, d requires 0 <= d < dim => Column(points, d) / |points| as real)
  }

  /** The squared differences of a coordinate from x, summed. */
  function Spread(points: seq<Vec>, d: nat, x: real): real
    requires forall i :: 0 <= i < |points| ==> d < |points[i]|
  {
    if points == [] then 0.0
    else
      var y := points[|points| - 1][d];
      Spread(points[..|points| - 1], d, x) + Square(y - x)
  }

  /** By how much n squared differences from x exceed those from m, for numbers of the given sum. */
  function Excess(sum: real, n: real, m: real, x: real): real {
    2.0 * (m - x) * (sum - n * m) + n * Square(m - x)
  }

  lemma {:induction false} SpreadMoves(points: seq<Vec>, d: nat, x: real, m: real)
    requires forall i :: 0 <= i < |points| ==> d < |points[i]|
    ensures Spread(points, d, x) == Spread(points, d, m) + Excess(Column(points, d), |points| as real, m, x)
  {
    hide Square, Excess;
    if points == [] {
      NoExcess(m, x);
    } else {
      var n := |points| - 1;
      SpreadMoves(points[..n], d, x, m);
      ExcessGrows(points[n][d], x, m, Column(points[..n], d), n as real);
    }
  }

  lemma NoExcess(m: real, x: real)
    ensures Excess(0.0, 0.0, m, x) == 0.0
  {
  }

  lemma ExcessGrows(y: real, x: real, m: real, sum: real, n: real)
    ensures Excess(sum, n, m, x) + Square(y - x) == Square(y - m) + Excess(sum + y, n + 1.0, m, x)
  {
    var g, e, h := y - m, m - x, sum - n * m;
    assert sum + y - (n + 1.0) * m == h + g && y - x == g + e;
    Shifted(g, e, h, n);
  }

  lemma Shifted(g: real, e: real, h: real, n: real)
    ensures 2.0 * e * h + n * Square(e) + Square(g + e)
         == Square(g) + 2.0 * e * (h + g) + (n + 1.0) * Square(e)
  {
  }

  /** The mean times the number of points is their sum, in every coordinate, and no other centre
      leaves smaller squared differences. */
  lemma MeanIsCentre(points: seq<Vec>, dim: nat, d: nat, x: real)
    requires points != [] && d < dim && forall i :: 0 <= i < |points| ==> |points[i]| == dim
    ensures Mean(points, dim)[d] * |points| as real == Column(points, d)
    ensures Spread(points, d, Mean(points, dim)[d]) <= Spread(points, d, x)
    ensures Spread(points, d, Mean(points, dim)[d]) == Spread(points, d, x) <==> Mean(points, dim)[d] == x
  {
    hide Column, Spread;
    var m, n := Mean(points, dim)[d], |points| as real;
    assert m * n == Column(points, d);
    SpreadMoves(points, d, x, m);
    var e := m - x;
    assert 2.0 * e * (Column(points, d) - n * m) == 0.0;
    SquareOf(e);
    Positive(n, Square(e));
    hide Square;
  }

  lemma Positive(n: real, y: real)
    requires n > 0.0 && y >= 0.0
    ensures n * y >= 0.0 && (n * y == 0.0 <==> y == 0.0)
  {
    if y > 0.0 {
      PositiveProduct(n, y);
    }
  }

  ghost predicate SameDim(all: seq<Entry>, centroids: seq<Vec>, dim: nat) {
    (forall x :: x in all ==> |x.v| == dim) && (forall c :: c in centroids ==> |c| == dim)
  }

  lemma {:induction false} PointsHaveDim(sqrt: Root, all: seq<Entry>, centroids: seq<Vec>, c: nat, dim: nat)
    requires centroids != [] && forall x :: x in all ==> |x.v| == dim
    ensures forall i :: 0 <= i < |Points(sqrt, all, centroids, c)| ==> |Points(sqrt, all, centroids, c)[i]| == dim
  {
    hide Best;
    if all != [] {
      PointsHaveDim(sqrt, all[..|all| - 1], centroids, c, dim);
    }
  }

  /** A centroid moves to the mean of its cluster; one without points stays. */
  function Moved(sqrt: Root, all: seq<Entry>, centroids: seq<Vec>, c: nat, dim: nat): (r: Vec)
    requires centroids != [] && c < |centroids| && SameDim(all, centroids, dim)
    ensures |r| == dim
  {
    PointsHaveDim(sqrt, all, centroids, c, dim);
    var points := Points(sqrt, all, centroids, c);
    if points == [] then centroids[c] else Mean(points, dim)
  }

  /** One iteration: all vectors are assigned to the old centroids, then all centroids move. */
  function Refined(sqrt: Root, all: seq<Entry>, centroids: seq<Vec>, dim: nat): (r: seq<Vec>)
    requires centroids != [] && SameDim(all, centroids, dim)
    ensures |r| == |centroids| && SameDim(all, r, dim)
  {
    seq(|centroids|, c requires 0 <= c < |centroids| => Moved(sqrt, all, centroids, c, dim))
  }

  function Trained(sqrt: Root, all: seq<Entry>, centroids: seq<Vec>, dim: nat, iters: nat): (r: seq<Vec>)
    requires centroids != [] && SameDim(all, centroids, dim)
    ensures |r| == |centroids| && SameDim(all, r, dim)
  {
    if iters == 0 then centroids else Refined(sqrt, all, Trained(sqrt, all, centroids, dim, iters - 1), dim)
  }
}
