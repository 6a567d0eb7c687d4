/**
 * One subspace of product-quantizer training: nearest-centroid assignment,
 * means, reseeding of empty clusters, and the proof that the objective never
 * increases.
 */
module Lloyd {
  import opened Vectors

  predicate Uniform(points: seq<Point>, width: nat) {
    forall i :: 0 <= i < |points| ==> |points[i]| == width
  }

  // ---------- the nearest centroid ----------

  /** The first centroid no farther than any other. */
  predicate IsNearest(x: Point, book: seq<Point>, best: nat)
    requires Uniform(book, |x|)
  {
    && best < |book|
    && (forall j :: 0 <= j < |book| ==> Distance(x, book[best]) <= Distance(x, book[j]))
    && (forall j :: 0 <= j < best ==> Distance(x, book[best]) < Distance(x, book[j]))
  }

  function Nearest(x: Point, book: seq<Point>): (best: nat)
    requires |book| > 0 && Uniform(book, |x|)
    ensures IsNearest(x, book, best)
  {
    if |book| == 1 then 0
    else
      var n := |book| - 1;
      var front := Nearest(x, book[..n]);
      assert forall j :: 0 <= j < n ==> book[..n][j] == book[j];
      if Distance(x, book[n]) < Distance(x, book[front]) then n else front
  }

  lemma NearestUnique(x: Point, book: seq<Point>, a: nat, b: nat)
    requires Uniform(book, |x|) && IsNearest(x, book, a) && IsNearest(x, book, b)
    ensures a == b
  {
    assert Distance(x, book[a]) == Distance(x, book[b]);
  }

  /** The search loop shared by training and encoding. */
  method FindNearest(x: Point, book: seq<Point>) returns (best: nat, bestDistance: real)
    requires |book| > 0 && Uniform(book, |x|)
    ensures best == Nearest(x, book) && bestDistance == Distance(x, book[best])
  {
    best, bestDistance := 0, 0.0;
    for centroid := 0 to |book|
      invariant best < |book|
      invariant centroid > 0 ==> best < centroid && bestDistance == Distance(x, book[best])
      invariant forall j :: 0 <= j < centroid ==> bestDistance <= Distance(x, book[j])
      invariant forall j :: 0 <= j < best ==> bestDistance < Distance(x, book[j])
    {
      var distance := SquaredDistance(x, book[centroid]);
      // the best distance starts out infinite
      if centroid == 0 || distance < bestDistance {
        best, bestDistance := centroid, distance;
      }
    }
    NearestUnique(x, book, best, Nearest(x, book));
  }

  // ---------- clusters ----------

  function Assign(xs: seq<Point>, book: seq<Point>): (a: seq<nat>)
    requires |book| > 0 && forall i :: 0 <= i < |xs| ==> Uniform(book, |xs[i]|)
    ensures |a| == |xs|
    ensures forall i :: 0 <= i < |a| ==> a[i] == Nearest(xs[i], book)
  {
    seq(|xs|, i requires 0 <= i < |xs| => Nearest(xs[i], book))
  }

  predicate AssignsBelow(a: seq<nat>, k: nat) {
    forall i :: 0 <= i < |a| ==> a[i] < k
  }

  function Count(a: seq<nat>, c: nat): nat {
    if |a| == 0 then 0 else Count(a[..|a| - 1], c) + (if a[|a| - 1] == c then 1 else 0)
  }

  function Sum(xs: seq<Point>, a: seq<nat>, c: nat, width: nat): (s: Point)
    requires |a| == |xs| && Uniform(xs, width)
    ensures |s| == width
  {
    if |a| == 0 then Zero(width)
    else
      var n := |a| - 1;
      var front := Sum(xs[..n], a[..n], c, width);
      if a[n] == c then Add(front, xs[n]) else front
  }

  /** The cost of cluster c around a centre v. */
  function Cost(xs: seq<Point>, a: seq<nat>, c: nat, v: Point): real
    requires |a| == |xs| && Uniform(xs, |v|)
  {
    if |a| == 0 then 0.0
    else
      var n := |a| - 1;
      Cost(xs[..n], a[..n], c, v) + (if a[n] == c then Distance(xs[n], v) else 0.0)
  }

  function Squares(xs: seq<Point>, a: seq<nat>, c: nat): real
    requires |a| == |xs|
  {
    if |a| == 0 then 0.0
    else
      var n := |a| - 1;
      Squares(xs[..n], a[..n], c) + (if a[n] == c then Dot(xs[n], xs[n]) else 0.0)
  }

  /** The k-means objective of an assignment. */
  function Objective(xs: seq<Point>, book: seq<Point>, a: seq<nat>): real
    requires |a| == |xs| && AssignsBelow(a, |book|)
    requires forall i :: 0 <= i < |xs| ==> Uniform(book, |xs[i]|)
  {
    if |a| == 0 then 0.0
    else
      var n := |a| - 1;
      assert Uniform(book, |xs[n]|);
      Objective(xs[..n], book, a[..n]) + Distance(xs[n], book[a[n]])
  }

  lemma {:induction false} CostExpands(xs: seq<Point>, a: seq<nat>, c: nat, v: Point)
    requires |a| == |xs| && Uniform(xs, |v|)
    ensures Cost(xs, a, c, v)
         == Squares(xs, a, c) - 2.0 * Dot(Sum(xs, a, c, |v|), v) + (Count(a, c) as real) * Dot(v, v)
    decreases |a|
  {
    hide Dot, Distance, Add;
    if |a| == 0 {
      DotZero(|v|, v);
    } else {
      var n := |a| - 1;
      CostExpands(xs[..n], a[..n], c, v);
      OneMoreTerm(Count(a[..n], c), Dot(v, v));
      if a[n] == c {
        DotAdd(Sum(xs[..n], a[..n], c, |v|), xs[n], v);
        DistanceExpands(xs[n], v);
      }
    }
  }

  lemma OneMoreTerm(n: nat, d: real)
    ensures ((n + 1) as real) * d == (n as real) * d + d
  {
  }

  /** The mean of a cluster, coordinate by coordinate. */
  function Mean(sum: Point, count: nat): (m: Point)
    requires count > 0
    ensures |m| == |sum|
  {
    seq(|sum|, i requires 0 <= i < |sum| => sum[i] / (count as real))
  }

  lemma SumIsScaledMean(sum: Point, count: nat)
    requires count > 0
    ensures Scale(count as real, Mean(sum, count)) == sum
  {
    forall i | 0 <= i < |sum| ensures Scale(count as real, Mean(sum, count))[i] == sum[i] {
      DivideBack(sum[i], count as real);
    }
  }

  lemma DivideBack(x: real, n: real)
    requires n > 0.0
    ensures n * (x / n) == x
  {
  }

  /** No centre serves a cluster better than its mean. */
  lemma MeanIsOptimal(xs: seq<Point>, a: seq<nat>, c: nat, v: Point)
    requires |a| == |xs| && Uniform(xs, |v|) && Count(a, c) > 0
    ensures Cost(xs, a, c, Mean(Sum(xs, a, c, |v|), Count(a, c))) <= Cost(xs, a, c, v)
  {
    hide Dot, Distance, Sum, Count, Cost, Squares, Mean, Scale;
    var s, n := Sum(xs, a, c, |v|), Count(a, c);
    var m := Mean(s, n);
    CostExpands(xs, a, c, v);
    CostExpands(xs, a, c, m);
    SumIsScaledMean(s, n);
    DotScale(n as real, m, v);
    DotScale(n as real, m, m);
    DistanceExpands(m, v);
    CompareCosts(n as real, Dot(m, m), Dot(m, v), Dot(v, v), Distance(m, v));
  }

  lemma CompareCosts(n: real, mm: real, mv: real, vv: real, d: real)
    requires n >= 0.0 && d >= 0.0 && d == mm - 2.0 * mv + vv
    ensures -2.0 * (n * mm) + n * mm <= -2.0 * (n * mv) + n * vv
  {
    assert n * d == n * mm - 2.0 * (n * mv) + n * vv;
    assert n * d >= 0.0;
  }

  lemma {:induction false} EmptyCostsNothing(xs: seq<Point>, a: seq<nat>, c: nat, v: Point)
    requires |a| == |xs| && Uniform(xs, |v|) && Count(a, c) == 0
    ensures Cost(xs, a, c, v) == 0.0
    decreases |a|
  {
    if |a| > 0 {
      EmptyCostsNothing(xs[..|a| - 1], a[..|a| - 1], c, v);
    }
  }

  /** Moving one centroid changes the objective by its own cluster's cost only. */
  lemma {:induction false} MoveOne(xs: seq<Point>, book: seq<Point>, a: seq<nat>, c: nat, v: Point)
    requires |a| == |xs| && AssignsBelow(a, |book|) && c < |book|
    requires Uniform(xs, |v|) && Uniform(book, |v|)
    ensures Objective(xs, book[c := v], a)
         == Objective(xs, book, a) - Cost(xs, a, c, book[c]) + Cost(xs, a, c, v)
    decreases |a|
  {
    if |a| > 0 {
      MoveOne(xs[..|a| - 1], book, a[..|a| - 1], c, v);
    }
  }

  /** Reassigning every sample to its nearest centroid does not raise the objective. */
  lemma {:induction false} NearestIsOptimal(xs: seq<Point>, book: seq<Point>, a: seq<nat>)
    requires |book| > 0 && |a| == |xs| && AssignsBelow(a, |book|)
    requires forall i :: 0 <= i < |xs| ==> Uniform(book, |xs[i]|)
    ensures AssignsBelow(Assign(xs, book), |book|)
    ensures Objective(xs, book, Assign(xs, book)) <= Objective(xs, book, a)
    decreases |a|
  {
    var b := Assign(xs, book);
    if |a| > 0 {
      var n := |a| - 1;
      NearestIsOptimal(xs[..n], book, a[..n]);
      assert Assign(xs[..n], book) == b[..n];
      assert IsNearest(xs[n], book, b[n]);
    }
  }

  // ---------- one iteration ----------

  /** The first largest entry, as `max_element` finds it. */
  function Farthest(distances: seq<real>): (f: nat)
    requires |distances| > 0
    ensures f < |distances|
    ensures forall j :: 0 <= j < |distances| ==> distances[j] <= distances[f]
    ensures forall j :: 0 <= j < f ==> distances[j] < distances[f]
  {
    if |distances| == 1 then 0
    else
      var n := |distances| - 1;
      var f := Farthest(distances[..n]);
      assert forall j :: 0 <= j < n ==> distances[..n][j] == distances[j];
      if distances[n] > distances[f] then n else f
  }

  /** The centroids from number c on after an update: means, or for an empty
      cluster the farthest sample not used yet. */
  function Updated(xs: seq<Point>, sums: seq<Point>, counts: seq<nat>, distances: seq<real>, c: nat): (book: seq<Point>)
    requires |distances| == |xs| > 0 && |sums| == |counts| && c <= |counts|
    ensures |book| == |counts| - c
    decreases |counts| - c
  {
    if c == |counts| then []
    else if counts[c] == 0 then
      var f := Farthest(distances);
      [xs[f]] + Updated(xs, sums, counts, distances[f := 0.0], c + 1)
    else [Mean(sums[c], counts[c])] + Updated(xs, sums, counts, distances, c + 1)
  }

  function Distances(xs: seq<Point>, book: seq<Point>): (d: seq<real>)
    requires |book| > 0 && forall i :: 0 <= i < |xs| ==> Uniform(book, |xs[i]|)
    ensures |d| == |xs|
  {
    seq(|xs|, i requires 0 <= i < |xs| =>
      assert Uniform(book, |xs[i]|);
      Distance(xs[i], book[Nearest(xs[i], book)]))
  }

  function Sums(xs: seq<Point>, a: seq<nat>, k: nat, width: nat): (s: seq<Point>)
    requires |a| == |xs| && Uniform(xs, width)
    ensures |s| == k && Uniform(s, width)
  {
    seq(k, c requires 0 <= c < k => Sum(xs, a, c, width))
  }

  function Counts(a: seq<nat>, k: nat): (n: seq<nat>)
    ensures |n| == k
  {
    seq(k, c requires 0 <= c < k => Count(a, c))
  }

  predicate Trainable(xs: seq<Point>, book: seq<Point>, width: nat) {
    |xs| > 0 && |book| > 0 && Uniform(xs, width) && Uniform(book, width)
  }

  /** Assignment, then update. */
  function Iterate(xs: seq<Point>, book: seq<Point>, width: nat): (book': seq<Point>)
    requires Trainable(xs, book, width)
    ensures |book'| == |book|
  {
    var a := Assign(xs, book);
    Updated(xs, Sums(xs, a, |book|, width), Counts(a, |book|), Distances(xs, book), 0)
  }

  /** The distances left once centroid `c` is updated: a reseeding sample counts as used. */
  function NextDistances(counts: seq<nat>, distances: seq<real>, c: nat): (d: seq<real>)
    requires |distances| > 0 && c < |counts|
    ensures |d| == |distances|
  {
    if counts[c] == 0 then distances[Farthest(distances) := 0.0] else distances
  }

  // ---------- what one iteration is, told without computing it ----------

  /** The sum of one coordinate over a cluster's samples. */
  function ClusterSum(xs: seq<Point>, near: seq<nat>, c: nat, j: nat): real
    requires |near| == |xs| && forall i :: 0 <= i < |xs| ==> j < |xs[i]|
  {
    if |near| == 0 then 0.0
    else
      var n := |near| - 1;
      ClusterSum(xs[..n], near[..n], c, j) + (if near[n] == c then xs[n][j] else 0.0)
  }

  /** The cluster's size times the centroid is the sum of its samples, coordinate by coordinate. */
  predicate IsCentre(xs: seq<Point>, near: seq<nat>, c: nat, centroid: Point)
    requires |near| == |xs| && Uniform(xs, |centroid|)
  {
    forall j :: 0 <= j < |centroid| ==> (Count(near, c) as real) * centroid[j] == ClusterSum(xs, near, c, j)
  }

  /** An empty cluster before c took sample i. */
  predicate TakenBefore(near: seq<nat>, taken: seq<nat>, c: nat, i: nat)
    requires c <= |taken|
  {
    exists b :: 0 <= b < c && Count(near, b) == 0 && taken[b] == i
  }

  /** How far a sample is from its nearest centroid; a sample already taken counts as not far at all. */
  function Left(xs: seq<Point>, book: seq<Point>, near: seq<nat>, taken: seq<nat>, c: nat, i: nat): real
    requires i < |xs| == |near| && near[i] < |book| && c <= |taken| && Uniform(book, |xs[i]|)
  {
    if TakenBefore(near, taken, c, i) then 0.0 else Distance(xs[i], book[near[i]])
  }

  /** Empty cluster c takes the first of the samples farthest from their nearest centroids. */
  predicate TakesFarthest(xs: seq<Point>, book: seq<Point>, near: seq<nat>, taken: seq<nat>, c: nat)
    requires |near| == |xs| && c < |taken| && AssignsBelow(near, |book|)
    requires forall i :: 0 <= i < |xs| ==> Uniform(book, |xs[i]|)
  {
    && taken[c] < |xs|
    && (forall i :: 0 <= i < |xs| ==>
          Left(xs, book, near, taken, c, i) <= Left(xs, book, near, taken, c, taken[c]))
    && (forall i :: 0 <= i < taken[c] ==>
          Left(xs, book, near, taken, c, i) < Left(xs, book, near, taken, c, taken[c]))
  }

  /** No sample not yet taken is farther than the one taken, and that one is not yet taken while any such is left. */
  lemma TakenIsFarthest(xs: seq<Point>, book: seq<Point>, near: seq<nat>, taken: seq<nat>, c: nat, i: nat)
    requires |near| == |xs| && c < |taken| && AssignsBelow(near, |book|) && i < |xs|
    requires forall i :: 0 <= i < |xs| ==> Uniform(book, |xs[i]|)
    requires TakesFarthest(xs, book, near, taken, c) && !TakenBefore(near, taken, c, i)
    ensures var f := taken[c];
            && f < |xs| && Distance(xs[i], book[near[i]]) <= Distance(xs[f], book[near[f]])
            && (Distance(xs[i], book[near[i]]) > 0.0 ==> !TakenBefore(near, taken, c, f))
  {
    hide Distance, TakenBefore;
    assert Left(xs, book, near, taken, c, i) <= Left(xs, book, near, taken, c, taken[c]);
  }

  /** Every sample is assigned to the first of its nearest centroids. */
  predicate AllNearest(xs: seq<Point>, book: seq<Point>, near: seq<nat>)
    requires forall i :: 0 <= i < |xs| ==> Uniform(book, |xs[i]|)
  {
    |near| == |xs| && forall i :: 0 <= i < |xs| ==> IsNearest(xs[i], book, near[i])
  }

  /** Centroid c after an iteration: the centre of its cluster, or the sample taken when that is empty. */
  predicate Moved(xs: seq<Point>, book: seq<Point>, near: seq<nat>, taken: seq<nat>, c: nat, centroid: Point)
    requires |near| == |xs| && c < |taken| && AssignsBelow(near, |book|) && Uniform(xs, |centroid|)
    requires forall i :: 0 <= i < |xs| ==> Uniform(book, |xs[i]|)
  {
    if Count(near, c) > 0 then IsCentre(xs, near, c, centroid)
    else TakesFarthest(xs, book, near, taken, c) && centroid == xs[taken[c]]
  }

  /** `next` follows `book` by one iteration, with these assignments and samples taken. */
  predicate StepBy(xs: seq<Point>, book: seq<Point>, next: seq<Point>, width: nat, near: seq<nat>, taken: seq<nat>) {
    && Trainable(xs, book, width) && |next| == |book| == |taken| && Uniform(next, width)
    && |near| == |xs| && AllNearest(xs, book, near) && AssignsBelow(near, |book|)
    && forall c :: 0 <= c < |book| ==> Moved(xs, book, near, taken, c, next[c])
  }

  ghost predicate Step(xs: seq<Point>, book: seq<Point>, next: seq<Point>, width: nat) {
    exists near, taken :: StepBy(xs, book, next, width, near, taken)
  }

  type Trace = seq<seq<Point>>

  /** Codebooks each of which follows the one before by one iteration. */
  ghost predicate Traced(xs: seq<Point>, books: Trace, width: nat) {
    && |books| > 0 && Trainable(xs, books[0], width)
    && forall t :: 0 < t < |books| ==> Step(xs, books[t - 1], books[t], width)
  }

  // ---------- the computed iteration is one ----------

  lemma {:induction false} SumByCoordinate(xs: seq<Point>, a: seq<nat>, c: nat, width: nat, j: nat)
    requires |a| == |xs| && Uniform(xs, width) && j < width
    ensures Sum(xs, a, c, width)[j] == ClusterSum(xs, a, c, j)
    decreases |a|
  {
    if |a| > 0 {
      SumByCoordinate(xs[..|a| - 1], a[..|a| - 1], c, width, j);
    }
  }

  lemma MeanIsCentre(xs: seq<Point>, a: seq<nat>, c: nat, width: nat)
    requires |a| == |xs| && Uniform(xs, width) && Count(a, c) > 0
    ensures IsCentre(xs, a, c, Mean(Sum(xs, a, c, width), Count(a, c)))
  {
    hide Sum, Count, ClusterSum;
    var s, n := Sum(xs, a, c, width), Count(a, c);
    forall j | 0 <= j < width ensures (n as real) * Mean(s, n)[j] == ClusterSum(xs, a, c, j) {
      SumByCoordinate(xs, a, c, width, j);
      DivideBack(s[j], n as real);
    }
  }

  /** The distances when centroid c is updated. */
  function DistancesAt(counts: seq<nat>, distances: seq<real>, c: nat): (d: seq<real>)
    requires |distances| > 0 && c <= |counts|
    ensures |d| == |distances|
  {
    if c == 0 then distances else NextDistances(counts, DistancesAt(counts, distances, c - 1), c - 1)
  }

  /** The sample each centroid takes, or would take if its cluster were empty. */
  function TakenOf(counts: seq<nat>, distances: seq<real>): (taken: seq<nat>)
    requires |distances| > 0
    ensures |taken| == |counts|
  {
    seq(|counts|, c requires 0 <= c < |counts| => Farthest(DistancesAt(counts, distances, c)))
  }

  lemma UpdatedHead(xs: seq<Point>, sums: seq<Point>, counts: seq<nat>, distances: seq<real>, c: nat)
    requires |distances| == |xs| > 0 && |sums| == |counts| && c < |counts|
    ensures var book := Updated(xs, sums, counts, distances, c);
            && book[1..] == Updated(xs, sums, counts, NextDistances(counts, distances, c), c + 1)
            && book[0] == if counts[c] > 0 then Mean(sums[c], counts[c]) else xs[Farthest(distances)]
  {
    hide Mean, Farthest;
  }

  /** Entry j of an update that is about to do centroid c. */
  lemma {:induction false} UpdatedEntry(xs: seq<Point>, sums: seq<Point>, counts: seq<nat>, distances: seq<real>,
      c: nat, j: nat)
    requires |distances| == |xs| > 0 && |sums| == |counts| && c <= j < |counts|
    ensures Updated(xs, sums, counts, DistancesAt(counts, distances, c), c)[j - c]
            == if counts[j] > 0 then Mean(sums[j], counts[j]) else xs[TakenOf(counts, distances)[j]]
    decreases j - c
  {
    hide Updated, Mean, Farthest, NextDistances;
    UpdatedHead(xs, sums, counts, DistancesAt(counts, distances, c), c);
    if c < j {
      UpdatedEntry(xs, sums, counts, distances, c + 1, j);
    }
  }

  lemma {:induction false} DistancesLeft(xs: seq<Point>, book: seq<Point>, width: nat, c: nat, i: nat)
    requires Trainable(xs, book, width) && c <= |book| && i < |xs|
    ensures var near, counts := Assign(xs, book), Counts(Assign(xs, book), |book|);
            IsNearest(xs[i], book, near[i])
            && DistancesAt(counts, Distances(xs, book), c)[i]
               == Left(xs, book, near, TakenOf(counts, Distances(xs, book)), c, i)
    decreases c
  {
    hide Distance, Nearest, Count, Farthest, IsNearest, TakenOf;
    var near := Assign(xs, book);
    var counts, distances := Counts(near, |book|), Distances(xs, book);
    var taken := TakenOf(counts, distances);
    assert IsNearest(xs[i], book, near[i]);
    NearestBelow(xs[i], book, near[i]);
    if c > 0 {
      DistancesLeft(xs, book, width, c - 1, i);
      TakenAt(counts, distances, c - 1);
      TakenMore(near, taken, c - 1, i);
    }
  }

  lemma NearestBelow(x: Point, book: seq<Point>, best: nat)
    requires Uniform(book, |x|) && IsNearest(x, book, best)
    ensures best < |book|
  {
  }

  lemma TakenAt(counts: seq<nat>, distances: seq<real>, c: nat)
    requires |distances| > 0 && c < |counts|
    ensures TakenOf(counts, distances)[c] == Farthest(DistancesAt(counts, distances, c))
  {
  }

  lemma TakenMore(near: seq<nat>, taken: seq<nat>, c: nat, i: nat)
    requires c < |taken|
    ensures TakenBefore(near, taken, c + 1, i) <==>
              TakenBefore(near, taken, c, i) || (Count(near, c) == 0 && taken[c] == i)
  {
    hide Count;
  }

  lemma FarthestTaken(xs: seq<Point>, book: seq<Point>, width: nat, c: nat)
    requires Trainable(xs, book, width) && c < |book|
    ensures var near := Assign(xs, book);
            && AssignsBelow(near, |book|)
            && TakesFarthest(xs, book, near, TakenOf(Counts(near, |book|), Distances(xs, book)), c)
  {
    hide Distance, Nearest, Count, Farthest, TakenOf, Left, IsNearest, DistancesAt, Distances;
    var near := Assign(xs, book);
    var counts, distances := Counts(near, |book|), Distances(xs, book);
    var taken := TakenOf(counts, distances);
    AssignedBelow(xs, book);
    TakenAt(counts, distances, c);
    forall i | 0 <= i < |xs|
      ensures Left(xs, book, near, taken, c, i) == DistancesAt(counts, distances, c)[i]
    {
      DistancesLeft(xs, book, width, c, i);
    }
  }

  lemma AssignedBelow(xs: seq<Point>, book: seq<Point>)
    requires |book| > 0 && forall i :: 0 <= i < |xs| ==> Uniform(book, |xs[i]|)
    ensures AssignsBelow(Assign(xs, book), |book|) && AllNearest(xs, book, Assign(xs, book))
  {
    hide Distance;
  }

  /** What the two passes compute is an iteration. */
  lemma IterateIsStep(xs: seq<Point>, book: seq<Point>, width: nat)
    requires Trainable(xs, book, width)
    ensures Step(xs, book, Iterate(xs, book, width), width)
  {
    hide Updated, Count, Sum, Mean, Distances, TakenOf, TakesFarthest, IsCentre, AllNearest, Nearest, IsNearest;
    var near, next := Assign(xs, book), Iterate(xs, book, width);
    var sums, counts, distances := Sums(xs, near, |book|, width), Counts(near, |book|), Distances(xs, book);
    var taken := TakenOf(counts, distances);
    AssignedBelow(xs, book);
    MeanWidth();
    forall c | 0 <= c < |book| ensures |next[c]| == width && Moved(xs, book, near, taken, c, next[c]) {
      UpdatedEntry(xs, sums, counts, distances, 0, c);
      if Count(near, c) > 0 {
        MeanIsCentre(xs, near, c, width);
      } else {
        FarthestTaken(xs, book, width, c);
        TakenInside(xs, book, near, taken, c);
      }
    }
    assert StepBy(xs, book, next, width, near, taken);
  }

  lemma TakenInside(xs: seq<Point>, book: seq<Point>, near: seq<nat>, taken: seq<nat>, c: nat)
    requires |near| == |xs| && c < |taken| && AssignsBelow(near, |book|)
    requires forall i :: 0 <= i < |xs| ==> Uniform(book, |xs[i]|)
    requires TakesFarthest(xs, book, near, taken, c)
    ensures taken[c] < |xs|
  {
  }

  lemma MeanWidth()
    ensures forall s: Point, n: nat | n > 0 :: |Mean(s, n)| == |s|
  {
  }

  // ---------- the objective never increases ----------

  /** There is only one centre. */
  lemma CentreIsMean(xs: seq<Point>, near: seq<nat>, c: nat, centroid: Point)
    requires |near| == |xs| && Uniform(xs, |centroid|) && Count(near, c) > 0 && IsCentre(xs, near, c, centroid)
    ensures centroid == Mean(Sum(xs, near, c, |centroid|), Count(near, c))
  {
    hide Count, Sum, ClusterSum;
    var s, n := Sum(xs, near, c, |centroid|), Count(near, c);
    forall j | 0 <= j < |centroid| ensures centroid[j] == Mean(s, n)[j] {
      SumByCoordinate(xs, near, c, |centroid|, j);
      Quotient(n as real, centroid[j], s[j]);
    }
  }

  lemma Quotient(n: real, x: real, product: real)
    requires n > 0.0 && n * x == product
    ensures x == product / n
  {
  }

  /** Replacing the first j centroids by the next ones does not raise the objective of the old assignment. */
  lemma {:induction false} UpdateLowers(xs: seq<Point>, book: seq<Point>, next: seq<Point>, width: nat, near: seq<nat>,
      taken: seq<nat>, j: nat)
    requires StepBy(xs, book, next, width, near, taken) && j <= |book|
    ensures var mixed := next[..j] + book[j..];
            Uniform(mixed, width) && Objective(xs, mixed, near) <= Objective(xs, book, near)
    decreases j
  {
    hide Cost, Objective, Count, Sum, Mean, IsCentre, TakesFarthest, AllNearest;
    if j == 0 {
      assert next[..0] + book[0..] == book;
    } else {
      var c := j - 1;
      UpdateLowers(xs, book, next, width, near, taken, c);
      var before := next[..c] + book[c..];
      assert Moved(xs, book, near, taken, c, next[c]);
      assert next[..j] + book[j..] == before[c := next[c]] && before[c] == book[c];
      MoveOne(xs, before, near, c, next[c]);
      if Count(near, c) > 0 {
        CentreIsMean(xs, near, c, next[c]);
        MeanIsOptimal(xs, near, c, book[c]);
      } else {
        EmptyCostsNothing(xs, near, c, before[c]);
        EmptyCostsNothing(xs, near, c, next[c]);
      }
    }
  }

  function ObjectiveOf(xs: seq<Point>, book: seq<Point>, width: nat): real
    requires Trainable(xs, book, width)
  {
    AssignedBelow(xs, book);
    Objective(xs, book, Assign(xs, book))
  }

  lemma OneAssignment(xs: seq<Point>, book: seq<Point>, near: seq<nat>)
    requires |book| > 0 && (forall i :: 0 <= i < |xs| ==> Uniform(book, |xs[i]|)) && AllNearest(xs, book, near)
    ensures near == Assign(xs, book)
  {
    hide IsNearest, Nearest;
    forall i | 0 <= i < |xs| ensures near[i] == Assign(xs, book)[i] {
      NearestUnique(xs[i], book, near[i], Assign(xs, book)[i]);
    }
  }

  /** One iteration, with any reseeding of empty clusters, never increases the objective. */
  lemma IterationNeverIncreases(xs: seq<Point>, book: seq<Point>, next: seq<Point>, width: nat)
    requires Step(xs, book, next, width)
    ensures Trainable(xs, book, width) && Trainable(xs, next, width)
    ensures ObjectiveOf(xs, next, width) <= ObjectiveOf(xs, book, width)
  {
    hide Objective, Moved, AllNearest, Assign;
    var near, taken :| StepBy(xs, book, next, width, near, taken);
    UpdateLowers(xs, book, next, width, near, taken, |book|);
    assert next[..|book|] + book[|book|..] == next;
    NearestIsOptimal(xs, next, near);
    OneAssignment(xs, book, near);
  }

  lemma {:induction false} TraceShape(xs: seq<Point>, books: Trace, width: nat, t: nat)
    requires Traced(xs, books, width) && t < |books|
    ensures Trainable(xs, books[t], width) && |books[t]| == |books[0]|
    decreases t
  {
    hide Moved, AllNearest, Trainable;
    if t > 0 {
      TraceShape(xs, books, width, t - 1);
      assert Step(xs, books[t - 1], books[t], width);
      StepShape(xs, books[t - 1], books[t], width);
    }
  }

  lemma StepShape(xs: seq<Point>, book: seq<Point>, next: seq<Point>, width: nat)
    requires Step(xs, book, next, width)
    ensures Trainable(xs, next, width) && |next| == |book|
  {
    hide Moved, AllNearest;
  }

  /** Over a whole training run the objective is monotone. */
  lemma {:induction false} TraceNeverIncreases(xs: seq<Point>, books: Trace, width: nat, m: nat, n: nat)
    requires Traced(xs, books, width) && m <= n < |books|
    ensures Trainable(xs, books[m], width) && Trainable(xs, books[n], width)
    ensures ObjectiveOf(xs, books[n], width) <= ObjectiveOf(xs, books[m], width)
    decreases n - m
  {
    hide Step, Trainable, ObjectiveOf;
    TraceShape(xs, books, width, m);
    TraceShape(xs, books, width, n);
    if m < n {
      TraceNeverIncreases(xs, books, width, m, n - 1);
      assert Step(xs, books[n - 1], books[n], width);
      IterationNeverIncreases(xs, books[n - 1], books[n], width);
    }
  }

  // ---------- centroids stay in range ----------

  predicate AllNormalized(points: seq<Point>) {
    forall i :: 0 <= i < |points| ==> Normalized(points[i])
  }

  lemma {:induction false} SumBounded(xs: seq<Point>, a: seq<nat>, c: nat, width: nat, i: nat)
    requires |a| == |xs| && Uniform(xs, width) && AllNormalized(xs) && i < width
    ensures -(Count(a, c) as real) <= Sum(xs, a, c, width)[i] <= Count(a, c) as real
    decreases |a|
  {
    if |a| > 0 {
      SumBounded(xs[..|a| - 1], a[..|a| - 1], c, width, i);
      assert Normalized(xs[|a| - 1]);
    }
  }

  lemma QuotientBounded(s: real, n: real)
    requires n > 0.0 && -n <= s <= n
    ensures -1.0 <= s / n <= 1.0
  {
    var q := s / n;
    DivideBack(s, n);
    if q > 1.0 {
      ProductGrows(n, q, 1.0);
    } else if q < -1.0 {
      ProductGrows(n, -1.0, q);
    }
  }

  lemma ProductGrows(n: real, x: real, y: real)
    requires n > 0.0 && x > y
    ensures n * x > n * y
  {
  }

  lemma MeanNormalized(xs: seq<Point>, a: seq<nat>, c: nat, width: nat)
    requires |a| == |xs| && Uniform(xs, width) && AllNormalized(xs) && Count(a, c) > 0
    ensures Normalized(Mean(Sum(xs, a, c, width), Count(a, c)))
  {
    var s, n := Sum(xs, a, c, width), Count(a, c);
    forall i | 0 <= i < width ensures -1.0 <= Mean(s, n)[i] <= 1.0 {
      SumBounded(xs, a, c, width, i);
      QuotientBounded(s[i], n as real);
    }
  }

  /** Training never leaves the range the distance table insists on. */
  lemma {:induction false} TraceNormalized(xs: seq<Point>, books: Trace, width: nat, t: nat)
    requires Traced(xs, books, width) && AllNormalized(xs) && AllNormalized(books[0]) && t < |books|
    ensures AllNormalized(books[t])
    decreases t
  {
    hide Step, Trainable, AllNormalized;
    if t > 0 {
      TraceNormalized(xs, books, width, t - 1);
      assert Step(xs, books[t - 1], books[t], width);
      StepNormalized(xs, books[t - 1], books[t], width);
    }
  }

  lemma StepNormalized(xs: seq<Point>, book: seq<Point>, next: seq<Point>, width: nat)
    requires Step(xs, book, next, width) && AllNormalized(xs)
    ensures AllNormalized(next)
  {
    hide Sum, Count, Mean, Normalized, IsCentre, AllNearest;
    var near, taken :| StepBy(xs, book, next, width, near, taken);
    forall c | 0 <= c < |next| ensures Normalized(next[c]) {
      assert Moved(xs, book, near, taken, c, next[c]);
      if Count(near, c) > 0 {
        CentreIsMean(xs, near, c, next[c]);
        MeanNormalized(xs, near, c, width);
      }
    }
  }
}
