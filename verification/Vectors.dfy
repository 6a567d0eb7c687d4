/** Vectors of reals: inner products, squared distances and their algebra. */
module Vectors {

  type Point = seq<real>

  function Times(x: real, y: real): real {
    x * y
  }

  function Dot(a: Point, b: Point): real
    requires |a| == |b|
  {
    if |a| == 0 then 0.0 else Dot(a[..|a| - 1], b[..|b| - 1]) + Times(a[|a| - 1], b[|b| - 1])
  }

  /** The squared Euclidean distance. */
  function Distance(a: Point, b: Point): (d: real)
    requires |a| == |b|
    ensures d >= 0.0
  {
    if |a| == 0 then 0.0
    else Distance(a[..|a| - 1], b[..|b| - 1]) + Squared(a[|a| - 1] - b[|b| - 1])
  }

  lemma TimesPositive(x: real, y: real)
    requires (x > 0.0 && y > 0.0) || (x < 0.0 && y < 0.0)
    ensures Times(x, y) > 0.0
  {
  }

  lemma TimesZero(y: real)
    ensures Times(0.0, y) == 0.0
  {
  }

  function Squared(x: real): (s: real)
    ensures s >= 0.0 && (x != 0.0 ==> s > 0.0)
  {
    SquarePositive(x);
    Times(x, x)
  }

  lemma SquarePositive(x: real)
    ensures Times(x, x) >= 0.0 && (x != 0.0 ==> Times(x, x) > 0.0)
  {
    hide Times;
    if x != 0.0 {
      TimesPositive(x, x);
    } else {
      TimesZero(x);
    }
  }

  function Add(a: Point, b: Point): (r: Point)
    requires |a| == |b|
    ensures |r| == |a|
  {
    seq(|a|, i requires 0 <= i < |a| => a[i] + b[i])
  }

  function Scale(k: real, a: Point): (r: Point)
    ensures |r| == |a|
  {
    seq(|a|, i requires 0 <= i < |a| => k * a[i])
  }

  function Zero(n: nat): (r: Point)
    ensures |r| == n
  {
    seq(n, _ => 0.0)
  }

  /** Every coordinate lies in [-1, 1]. */
  predicate Normalized(a: Point) {
    forall i :: 0 <= i < |a| ==> -1.0 <= a[i] <= 1.0
  }

  lemma ExpandSquare(x: real, y: real)
    ensures Squared(x - y) == x * x - 2.0 * (x * y) + y * y
  {
  }

  lemma {:induction false} DistanceExpands(a: Point, b: Point)
    requires |a| == |b|
    ensures Distance(a, b) == Dot(a, a) - 2.0 * Dot(a, b) + Dot(b, b)
  {
    if |a| > 0 {
      DistanceExpands(a[..|a| - 1], b[..|b| - 1]);
      ExpandSquare(a[|a| - 1], b[|b| - 1]);
    }
  }

  lemma {:induction false} DotAdd(a: Point, b: Point, c: Point)
    requires |a| == |b| == |c|
    ensures Dot(Add(a, b), c) == Dot(a, c) + Dot(b, c)
  {
    if |a| > 0 {
      var n := |a| - 1;
      DotAdd(a[..n], b[..n], c[..n]);
      assert Add(a, b)[..n] == Add(a[..n], b[..n]);
      DistributeRight(a[n], b[n], c[n]);
    }
  }

  lemma DistributeRight(x: real, y: real, z: real)
    ensures (x + y) * z == x * z + y * z
  {
  }

  lemma {:induction false} DotScale(k: real, a: Point, c: Point)
    requires |a| == |c|
    ensures Dot(Scale(k, a), c) == k * Dot(a, c)
  {
    if |a| > 0 {
      var n := |a| - 1;
      DotScale(k, a[..n], c[..n]);
      ScaleFront(k, a, n);
      Associate(k, a[n], c[n], Dot(a[..n], c[..n]));
    }
  }

  lemma ScaleFront(k: real, a: Point, n: nat)
    requires n <= |a|
    ensures Scale(k, a)[..n] == Scale(k, a[..n])
  {
    forall i | 0 <= i < n ensures Scale(k, a)[i] == Scale(k, a[..n])[i] {
      assert a[..n][i] == a[i];
    }
  }

  lemma Associate(k: real, x: real, y: real, s: real)
    ensures k * (s + x * y) == k * s + (k * x) * y
  {
  }

  lemma {:induction false} DotZero(n: nat, c: Point)
    requires |c| == n
    ensures Dot(Zero(n), c) == 0.0
  {
    if n > 0 {
      DotZero(n - 1, c[..n - 1]);
      assert Zero(n)[..n - 1] == Zero(n - 1);
    }
  }

  lemma DotLast(a: Point, b: Point)
    requires |a| == |b| > 0
    ensures Dot(a, b) == Dot(a[..|a| - 1], b[..|b| - 1]) + Times(a[|a| - 1], b[|b| - 1])
  {
    hide Times;
  }

  lemma DotEmpty(a: Point, b: Point)
    requires |a| == |b| == 0
    ensures Dot(a, b) == 0.0
  {
  }

  lemma {:induction false} DotConcat(a: Point, b: Point, c: Point, d: Point)
    requires |a| == |c| && |b| == |d|
    ensures Dot(a + b, c + d) == Dot(a, c) + Dot(b, d)
    decreases |b|
  {
    hide Dot, Times;
    if |b| == 0 {
      assert a + b == a && c + d == c;
      DotEmpty(b, d);
    } else {
      var n := |b| - 1;
      DotConcat(a, b[..n], c, d[..n]);
      DotLast(a + b, c + d);
      DotLast(b, d);
      assert (a + b)[..|a| + n] == a + b[..n] && (c + d)[..|a| + n] == c + d[..n];
    }
  }

  lemma DistanceLast(a: Point, b: Point)
    requires |a| == |b| > 0
    ensures Distance(a, b) == Distance(a[..|a| - 1], b[..|b| - 1]) + Squared(a[|a| - 1] - b[|b| - 1])
  {
    hide Squared;
  }

  lemma {:induction false} DistanceConcat(a: Point, b: Point, c: Point, d: Point)
    requires |a| == |c| && |b| == |d|
    ensures Distance(a + b, c + d) == Distance(a, c) + Distance(b, d)
    decreases |b|
  {
    hide Squared;
    if |b| == 0 {
      assert a + b == a && c + d == c;
    } else {
      var n := |b| - 1;
      DistanceConcat(a, b[..n], c, d[..n]);
      assert (a + b)[..|a| + n] == a + b[..n] && (c + d)[..|a| + n] == c + d[..n];
    }
  }

  lemma DistanceMore(a: Point, b: Point, n: nat)
    requires n < |a| == |b|
    ensures Distance(a[..n + 1], b[..n + 1]) == Distance(a[..n], b[..n]) + Times(a[n] - b[n], a[n] - b[n])
  {
    assert a[..n + 1][..n] == a[..n] && b[..n + 1][..n] == b[..n];
  }

  /** `squared_distance` */
  method SquaredDistance(point: Point, centroid: Point) returns (result: real)
    requires |point| == |centroid|
    ensures result == Distance(point, centroid)
  {
    result := 0.0;
    for i := 0 to |point|
      invariant result == Distance(point[..i], centroid[..i])
    {
      var delta := point[i] - centroid[i];
      DistanceMore(point, centroid, i);
      result := result + delta * delta;
    }
    assert point[..|point|] == point && centroid[..|centroid|] == centroid;
  }
}
