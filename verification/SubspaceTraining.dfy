/**
 * The training loops for one subspace, in place over the codebook and the
 * scratch arrays, proved against the functions of Lloyd.
 */
module SubspaceTraining {
  import opened Vectors
  import opened Lloyd

  // ---------- k-means++ seeding ----------

  function Total(d: seq<real>): real {
    if |d| == 0 then 0.0 else Total(d[..|d| - 1]) + d[|d| - 1]
  }

  /** Walks the cumulative distances until they reach the drawn target; a
      positive draw lands on a sample that is no seed yet. */
  method SelectSeed(distances: seq<real>, drawn: real, fallback: nat) returns (selected: nat)
    requires fallback < |distances|
    requires forall i :: 0 <= i < |distances| ==> distances[i] >= 0.0
    requires 0.0 <= drawn <= Total(distances)
    ensures selected < |distances|
    ensures drawn > 0.0 ==>
      && Total(distances[..selected]) < drawn <= Total(distances[..selected + 1])
      && distances[selected] > 0.0
    ensures drawn == 0.0 ==> selected == 0
  {
    selected := fallback;
    var target := drawn;
    assert distances[..|distances|] == distances;
    for sample := 0 to |distances|
      invariant target == drawn - Total(distances[..sample])
      invariant sample == 0 || (target > 0.0 && drawn > 0.0)
    {
      TotalPositive(distances[..sample + 1]);
      assert distances[..sample + 1][..sample] == distances[..sample];
      target := target - distances[sample];
      if target <= 0.0 {
        selected := sample;
        return;
      }
    }
  }

  /** The distance to the nearest seed once one more seed is chosen. */
  lemma NearestAfterOneMore(x: Point, book: seq<Point>, v: Point)
    requires |book| > 0 && Uniform(book, |x|) && |v| == |x|
    ensures Uniform(book + [v], |x|)
    ensures var was, now := Distance(x, book[Nearest(x, book)]), Distance(x, (book + [v])[Nearest(x, book + [v])]);
      now == if Distance(x, v) < was then Distance(x, v) else was
  {
    hide Distance, Nearest;
    var all := book + [v];
    var b, n := Nearest(x, book), Nearest(x, all);
    assert all[b] == book[b] && all[|book|] == v;
    assert Distance(x, all[n]) <= Distance(x, all[b]) && Distance(x, all[n]) <= Distance(x, all[|book|]);
    if n < |book| {
      assert all[n] == book[n];
    }
  }

  lemma NearestOfOne(x: Point, v: Point)
    requires |x| == |v|
    ensures Nearest(x, [v]) == 0
  {
  }

  lemma UniformMore(xs: seq<Point>, width: nat, book: seq<Point>, v: Point)
    requires Uniform(xs, width) && Uniform(book, width) && |v| == width
    ensures Uniform(book + [v], width) && forall i :: 0 <= i < |xs| ==> Uniform(book + [v], |xs[i]|)
  {
  }

  /** The distance to the nearest seed is lowered to the newest one's if that is nearer. */
  lemma LoweredOne(xs: seq<Point>, width: nat, book: seq<Point>, v: Point, before: seq<real>, i: nat)
    requires Uniform(xs, width) && Uniform(book, width) && |v| == width && |before| == |xs| && i < |xs|
    requires |book| > 0 ==> before == Distances(xs, book)
    ensures Uniform(book + [v], width) && forall i :: 0 <= i < |xs| ==> Uniform(book + [v], |xs[i]|)
    ensures Distances(xs, book + [v])[i]
            == if |book| == 0 || Distance(xs[i], v) < before[i] then Distance(xs[i], v) else before[i]
  {
    hide Distance, Nearest;
    UniformMore(xs, width, book, v);
    if |book| == 0 {
      assert book + [v] == [v];
      NearestOfOne(xs[i], v);
    } else {
      NearestAfterOneMore(xs[i], book, v);
    }
  }

  lemma UniformAt(xs: seq<Point>, width: nat, i: nat)
    requires Uniform(xs, width) && i < |xs|
    ensures |xs[i]| == width
  {
  }

  lemma NoTotal(d: seq<real>)
    ensures Total(d[..0]) == 0.0
  {
  }

  lemma TotalNext(d: seq<real>, n: nat)
    requires n < |d|
    ensures Total(d[..n + 1]) == Total(d[..n]) + d[n]
  {
    assert d[..n + 1][..n] == d[..n];
  }

  /** Replacing one more entry of the old list by the new list's. */
  lemma OneMoreReplaced(before: seq<real>, goal: seq<real>, n: nat)
    requires |before| == |goal| && n < |goal|
    ensures (goal[..n] + before[n..])[n] == before[n]
    ensures (goal[..n] + before[n..])[n := goal[n]] == goal[..n + 1] + before[n + 1..]
  {
  }

  /** One pass over the samples: lowers every minimum distance by the newest seed. */
  method LowerDistances(xs: seq<Point>, width: nat, infinite: bool, ghost book: seq<Point>, newest: Point,
      minimum: array<real>)
    returns (total: real)
    requires infinite == (|book| == 0)
    requires Uniform(xs, width) && Uniform(book, width) && |newest| == width && minimum.Length == |xs|
    requires |book| > 0 ==> minimum[..] == Distances(xs, book)
    modifies minimum
    ensures Uniform(book + [newest], width) && minimum[..] == Distances(xs, book + [newest])
    ensures total == Total(minimum[..])
  {
    hide *;
    UniformMore(xs, width, book, newest);
    ghost var before, goal := minimum[..], Distances(xs, book + [newest]);
    total := 0.0;
    NoTotal(goal);
    for sample := 0 to |xs|
      invariant minimum[..] == goal[..sample] + before[sample..]
      invariant total == Total(goal[..sample])
    {
      UniformAt(xs, width, sample);
      LoweredOne(xs, width, book, newest, before, sample);
      OneMoreReplaced(before, goal, sample);
      TotalNext(goal, sample);
      ghost var current := minimum[..];
      assert minimum[sample] == current[sample];
      var distance := SquaredDistance(xs[sample], newest);
      // the minimum starts out infinite
      var lowered := if infinite || distance < minimum[sample] then distance else minimum[sample];
      assert lowered == goal[sample];
      minimum[sample] := lowered;
      assert minimum[..] == current[sample := lowered];
      total := total + lowered;
    }
    assert goal[..|xs|] == goal;
  }

  // ---------- the generator ----------

  /** An arbitrary generator: any index below a bound, any real of an interval. The reals drawn are recorded. */
  class Generator {
    ghost var drawn: seq<real>

    constructor ()
      ensures drawn == []
    {
      drawn := [];
    }

    method Index(bound: nat) returns (i: nat)
      requires bound > 0
      ensures i < bound
    {
      i :| i < bound;
    }

    method Real(total: real) returns (r: real)
      requires total > 0.0
      modifies this
      ensures 0.0 <= r < total && drawn == old(drawn) + [r]
    {
      r :| 0.0 <= r < total;
      drawn := drawn + [r];
    }
  }

  predicate AllFrom(points: seq<Point>, xs: seq<Point>) {
    forall i :: 0 <= i < |points| ==> points[i] in xs
  }

  lemma FromIsUniform(points: seq<Point>, xs: seq<Point>, width: nat)
    requires AllFrom(points, xs) && Uniform(xs, width)
    ensures Uniform(points, width)
  {
  }

  lemma TotalPositive(d: seq<real>)
    requires forall i :: 0 <= i < |d| ==> d[i] >= 0.0
    ensures Total(d) >= 0.0
  {
  }

  predicate AllSeeded(xs: seq<Point>, seeds: seq<Point>) {
    forall x :: x in xs ==> x in seeds
  }

  /** The cumulative distances reach the draw at sample k; a draw of exactly zero is reached at once. */
  predicate Reached(d: seq<real>, r: real, k: nat)
    requires k < |d|
  {
    if r > 0.0 then Total(d[..k]) < r <= Total(d[..k + 1]) else r == 0.0 && k == 0
  }

  /** The draw picks this seed, each sample weighted by its distance to the nearest seed so far. */
  predicate Picked(xs: seq<Point>, seeds: seq<Point>, width: nat, r: real, seed: Point)
    requires |seeds| > 0 && Uniform(xs, width) && Uniform(seeds, width)
  {
    exists k :: 0 <= k < |xs| && xs[k] == seed && Reached(Distances(xs, seeds), r, k)
  }

  /** A positive draw picks a point that is no seed yet. */
  lemma PickedIsNew(xs: seq<Point>, seeds: seq<Point>, width: nat, r: real, seed: Point)
    requires |seeds| > 0 && Uniform(xs, width) && Uniform(seeds, width)
    requires Picked(xs, seeds, width, r, seed) && r > 0.0
    ensures seed !in seeds
  {
    hide Distances;
    var k :| 0 <= k < |xs| && xs[k] == seed && Reached(Distances(xs, seeds), r, k);
    TotalNext(Distances(xs, seeds), k);
    if seed in seeds {
      SeedsAreAtZero(xs, seeds, width, k);
    }
  }

  /** The centroid chosen after `seeds`: a draw decides, until every sample is a seed; then the samples in turn. */
  method NextSeed(xs: seq<Point>, width: nat, seeds: seq<Point>, newest: Point, minimum: array<real>,
      generator: Generator)
    returns (seed: Point)
    requires |xs| > 0 && Uniform(xs, width) && Uniform(seeds, width) && |newest| == width && minimum.Length == |xs|
    requires |seeds| > 0 ==> minimum[..] == Distances(xs, seeds)
    modifies minimum, generator
    ensures seed in xs
    ensures Uniform(seeds + [newest], width) && minimum[..] == Distances(xs, seeds + [newest])
    ensures if AllSeeded(xs, seeds + [newest])
              then generator.drawn == old(generator.drawn) && seed == xs[(|seeds| + 1) % |xs|]
              else && |generator.drawn| == |old(generator.drawn)| + 1 && old(generator.drawn) <= generator.drawn
                   && Picked(xs, seeds + [newest], width, generator.drawn[|old(generator.drawn)|], seed)
  {
    hide AllSeeded;
    var total := LowerDistances(xs, width, |seeds| == 0, seeds, newest, minimum);
    ghost var all := seeds + [newest];
    var selected := (|seeds| + 1) % |xs|;
    if AllSeeded(xs, all) {
      NoneAtDistance(xs, all, width);
    }
    if total > 0.0 {
      var target := generator.Real(total);
      selected := SelectSeed(minimum[..], target, selected);
      assert Reached(minimum[..], target, selected);
    } else {
      NoDistanceLeft(xs, all, width);
    }
    seed := xs[selected];
  }

  lemma NoneAtDistance(xs: seq<Point>, book: seq<Point>, width: nat)
    requires |book| > 0 && Uniform(xs, width) && Uniform(book, width) && AllSeeded(xs, book)
    ensures Total(Distances(xs, book)) == 0.0
  {
    hide Distance, Nearest, Total;
    var d := Distances(xs, book);
    forall i | 0 <= i < |d| ensures d[i] == 0.0 {
      SeedsAreAtZero(xs, book, width, i);
    }
    AllZero(d);
  }

  lemma {:induction false} AllZero(d: seq<real>)
    requires forall i :: 0 <= i < |d| ==> d[i] == 0.0
    ensures Total(d) == 0.0
    decreases |d|
  {
    if |d| > 0 {
      AllZero(d[..|d| - 1]);
    }
  }

  lemma {:induction false} DistanceToItself(x: Point)
    ensures Distance(x, x) == 0.0
  {
    if |x| > 0 {
      DistanceToItself(x[..|x| - 1]);
    }
  }

  lemma {:induction false} ZeroDistanceIsEqual(x: Point, y: Point)
    requires |x| == |y| && Distance(x, y) == 0.0
    ensures x == y
  {
    hide Distance, Squared;
    if |x| > 0 {
      var n := |x| - 1;
      DistanceLast(x, y);
      ZeroDistanceIsEqual(x[..n], y[..n]);
      assert x == x[..n] + [x[n]] && y == y[..n] + [y[n]];
    }
  }

  lemma SeedsAreAtZero(xs: seq<Point>, book: seq<Point>, width: nat, i: nat)
    requires |book| > 0 && Uniform(xs, width) && Uniform(book, width) && i < |xs| && xs[i] in book
    ensures Distances(xs, book)[i] == 0.0
  {
    hide Distance, Nearest;
    var j :| 0 <= j < |book| && book[j] == xs[i];
    DistanceToItself(xs[i]);
    assert Distance(xs[i], book[Nearest(xs[i], book)]) <= Distance(xs[i], book[j]);
  }

  lemma {:induction false} ZeroTotal(d: seq<real>, i: nat)
    requires (forall j :: 0 <= j < |d| ==> d[j] >= 0.0) && Total(d) <= 0.0 && i < |d|
    ensures d[i] == 0.0
    decreases |d|
  {
    TotalPositive(d[..|d| - 1]);
    if i < |d| - 1 {
      ZeroTotal(d[..|d| - 1], i);
    }
  }

  lemma NoDistanceLeft(xs: seq<Point>, book: seq<Point>, width: nat)
    requires |book| > 0 && Uniform(xs, width) && Uniform(book, width)
    requires Total(Distances(xs, book)) <= 0.0
    ensures AllSeeded(xs, book)
  {
    hide Distance, Nearest, Total;
    forall x | x in xs ensures x in book {
      var i :| 0 <= i < |xs| && xs[i] == x;
      ZeroTotal(Distances(xs, book), i);
      var b := Nearest(x, book);
      ZeroDistanceIsEqual(x, book[b]);
    }
  }

  /** Setting entry n of the part that begins at `base`. */
  lemma SetEntry(before: seq<Point>, base: nat, n: nat, k: nat, v: Point)
    requires n < k && base + k <= |before|
    ensures var after := before[base + n := v];
      && after[..base] == before[..base] && after[base + k..] == before[base + k..]
      && after[base..base + n + 1] == before[base..base + n] + [v]
      && after[base..base + n] == before[base..base + n]
      && after[base + n + 1..base + k] == before[base + n + 1..base + k]
  {
  }

  /** Draw i picked seed i + 1; there is no draw once every sample is a seed. */
  predicate SpreadAt(seeds: seq<Point>, draws: seq<real>, xs: seq<Point>, width: nat, i: nat)
    requires 0 < i < |seeds| && |xs| > 0 && Uniform(xs, width) && Uniform(seeds, width)
  {
    if i <= |draws| then Picked(xs, seeds[..i], width, draws[i - 1], seeds[i])
    else AllSeeded(xs, seeds[..i]) && seeds[i] == xs[i % |xs|]
  }

  /** The seeds are those k-means++ chooses for these draws, from one of the samples on. */
  predicate Spread(seeds: seq<Point>, draws: seq<real>, xs: seq<Point>, width: nat) {
    && |draws| < |seeds| && |xs| > 0 && Uniform(xs, width) && Uniform(seeds, width) && seeds[0] in xs
    && forall i :: 0 < i < |seeds| ==> SpreadAt(seeds, draws, xs, width, i)
  }

  /** Every seed differs from all earlier ones, unless its draw was exactly zero or every sample was a seed already. */
  lemma SeedsDiffer(seeds: seq<Point>, draws: seq<real>, xs: seq<Point>, width: nat, i: nat)
    requires Spread(seeds, draws, xs, width) && 0 < i < |seeds|
    ensures seeds[i] !in seeds[..i] || AllSeeded(xs, seeds[..i]) || (i <= |draws| && draws[i - 1] == 0.0)
  {
    hide AllSeeded;
    assert SpreadAt(seeds, draws, xs, width, i);
    if i <= |draws| && draws[i - 1] != 0.0 {
      assert draws[i - 1] > 0.0;
      PickedIsNew(xs, seeds[..i], width, draws[i - 1], seeds[i]);
    }
  }

  /** One more seed, chosen with at most one more draw. */
  lemma SpreadMore(seeds: seq<Point>, past: seq<real>, before: seq<real>, now: seq<real>, xs: seq<Point>, width: nat,
      seed: Point)
    requires past <= before && Spread(seeds, before[|past|..], xs, width) && |seed| == width && |seeds| > 0
    requires Uniform(xs, width) && Uniform(seeds, width) && |xs| > 0
    requires if AllSeeded(xs, seeds) then now == before && seed == xs[|seeds| % |xs|]
             else |now| == |before| + 1 && before <= now && Picked(xs, seeds, width, now[|before|], seed)
    ensures past <= now && Spread(seeds + [seed], now[|past|..], xs, width)
  {
    hide AllSeeded, SpreadAt, Picked;
    var draws, more := before[|past|..], now[|past|..];
    if |draws| < |seeds| - 1 {
      StoppedDrawing(seeds, draws, xs, width);
    }
    if !AllSeeded(xs, seeds) {
      assert more == draws + [now[|before|]];
    }
    forall i | 0 < i < |seeds| + 1 ensures SpreadAt(seeds + [seed], more, xs, width, i) {
      if i < |seeds| {
        SpreadStays(seeds, draws, more, xs, width, seed, i);
      } else {
        SpreadNewest(seeds, more, xs, width, seed);
      }
    }
  }

  /** With fewer draws than chosen seeds, every sample is a seed. */
  lemma StoppedDrawing(seeds: seq<Point>, draws: seq<real>, xs: seq<Point>, width: nat)
    requires Spread(seeds, draws, xs, width) && |draws| < |seeds| - 1
    ensures AllSeeded(xs, seeds)
  {
    var last := |seeds| - 1;
    assert SpreadAt(seeds, draws, xs, width, last);
    assert forall x :: x in seeds[..last] ==> x in seeds;
  }

  lemma SpreadStays(seeds: seq<Point>, draws: seq<real>, more: seq<real>, xs: seq<Point>, width: nat, seed: Point,
      i: nat)
    requires 0 < i < |seeds| && |xs| > 0 && Uniform(xs, width) && Uniform(seeds, width) && |seed| == width
    requires SpreadAt(seeds, draws, xs, width, i) && draws <= more
    requires more == draws || i <= |draws|
    ensures SpreadAt(seeds + [seed], more, xs, width, i)
  {
    hide AllSeeded, Picked;
    assert (seeds + [seed])[..i] == seeds[..i];
  }

  lemma SpreadNewest(seeds: seq<Point>, more: seq<real>, xs: seq<Point>, width: nat, seed: Point)
    requires |seeds| > 0 && |xs| > 0 && Uniform(xs, width) && Uniform(seeds, width) && |seed| == width
    requires if |seeds| <= |more| then Picked(xs, seeds, width, more[|seeds| - 1], seed)
             else AllSeeded(xs, seeds) && seed == xs[|seeds| % |xs|]
    ensures SpreadAt(seeds + [seed], more, xs, width, |seeds|)
  {
    hide AllSeeded, Picked;
    assert (seeds + [seed])[..|seeds|] == seeds;
  }

  /** k-means++ seeding of one subspace's centroids, in place. */
  method SeedCentroids(xs: seq<Point>, width: nat, codebook: array<Point>, base: nat, k: nat, minimum: array<real>,
      generator: Generator)
    requires |xs| > 0 && Uniform(xs, width) && k > 0 && base + k <= codebook.Length && minimum.Length == |xs|
    modifies codebook, minimum, generator
    ensures old(generator.drawn) <= generator.drawn && AllFrom(codebook[base..base + k], xs)
    ensures Spread(codebook[base..base + k], generator.drawn[|old(generator.drawn)|..], xs, width)
    ensures codebook[..base] == old(codebook[..base]) && codebook[base + k..] == old(codebook[base + k..])
  {
    hide Distances, AllFrom, Spread, AllSeeded, Picked;
    ghost var past := generator.drawn;
    var first := generator.Index(|xs|);
    SetEntry(codebook[..], base, 0, k, xs[first]);
    codebook[base] := xs[first];
    ghost var seeds, newest := [], xs[first];
    assert codebook[..] == old(codebook[..])[base := xs[first]];
    SeedsFrom([], xs[first], xs, width);
    NoneIsUniform(width);
    SpreadOne(newest, generator.drawn[|past|..], xs, width);
    for centroid := 1 to k
      invariant codebook[base..base + centroid] == seeds + [newest] && |seeds| == centroid - 1
      invariant AllFrom(seeds + [newest], xs) && Uniform(seeds, width) && |newest| == width
      invariant past <= generator.drawn && Spread(seeds + [newest], generator.drawn[|past|..], xs, width)
      invariant centroid > 1 ==> minimum[..] == Distances(xs, seeds)
      invariant codebook[..base] == old(codebook[..base]) && codebook[base + k..] == old(codebook[base + k..])
    {
      ghost var drawn := generator.drawn;
      assert codebook[base..base + centroid][..centroid - 1] == seeds && codebook[base + centroid - 1] == newest;
      var seed := NextSeed(xs, width, codebook[base..base + centroid][..centroid - 1], codebook[base + centroid - 1],
          minimum, generator);
      SpreadMore(seeds + [newest], past, drawn, generator.drawn, xs, width, seed);
      ghost var before := codebook[..];
      SetEntry(before, base, centroid, k, seed);
      codebook[base + centroid] := seed;
      assert codebook[..] == before[base + centroid := seed];
      SeedsFrom(seeds + [newest], seed, xs, width);
      seeds, newest := seeds + [newest], seed;
    }
  }

  lemma SpreadOne(seed: Point, draws: seq<real>, xs: seq<Point>, width: nat)
    requires |draws| == 0 && seed in xs && Uniform(xs, width)
    ensures Spread([seed], draws, xs, width)
  {
  }

  lemma SeedsFrom(seeds: seq<Point>, seed: Point, xs: seq<Point>, width: nat)
    requires AllFrom(seeds, xs) && seed in xs && Uniform(xs, width)
    ensures AllFrom(seeds + [seed], xs) && Uniform(seeds + [seed], width) && |seed| == width
  {
  }

  lemma NoneIsUniform(width: nat)
    ensures Uniform([], width)
  {
  }

  // ---------- Lloyd iterations ----------

  /** The accumulators after the first n samples. */
  predicate Accumulated(xs: seq<Point>, a: seq<nat>, width: nat, n: nat, sums: seq<Point>, counts: seq<nat>)
    requires |a| == |xs| && n <= |xs| && Uniform(xs, width)
  {
    && |sums| == |counts|
    && forall c :: 0 <= c < |sums| ==> sums[c] == Sum(xs[..n], a[..n], c, width) && counts[c] == Count(a[..n], c)
  }

  lemma AccumulateOne(xs: seq<Point>, a: seq<nat>, width: nat, n: nat, sums: seq<Point>, counts: seq<nat>)
    requires |a| == |xs| && n < |xs| && Uniform(xs, width) && Accumulated(xs, a, width, n, sums, counts)
    requires a[n] < |sums|
    ensures |sums[a[n]]| == width
    ensures Accumulated(xs, a, width, n + 1, sums[a[n] := Add(sums[a[n]], xs[n])], counts[a[n] := counts[a[n]] + 1])
  {
    assert xs[..n + 1][..n] == xs[..n] && a[..n + 1][..n] == a[..n];
  }

  lemma AccumulateNone(xs: seq<Point>, a: seq<nat>, width: nat, sums: seq<Point>, counts: seq<nat>)
    requires |a| == |xs| && Uniform(xs, width) && |sums| == |counts|
    requires forall c :: 0 <= c < |sums| ==> sums[c] == Zero(width) && counts[c] == 0
    ensures Accumulated(xs, a, width, 0, sums, counts)
  {
  }

  lemma AccumulateAll(xs: seq<Point>, a: seq<nat>, width: nat, sums: seq<Point>, counts: seq<nat>)
    requires |a| == |xs| && Uniform(xs, width) && Accumulated(xs, a, width, |xs|, sums, counts)
    ensures sums == Sums(xs, a, |sums|, width) && counts == Counts(a, |counts|)
  {
    assert xs[..|xs|] == xs && a[..|xs|] == a;
  }

  /** The assignment pass: nearest centroids, cluster sums and counts, minimum distances. */
  method AssignSamples(xs: seq<Point>, width: nat, book: seq<Point>,
    assignments: array<nat>, sums: array<Point>, counts: array<nat>, minimum: array<real>)
    requires Trainable(xs, book, width) && assignments != counts
    requires assignments.Length == minimum.Length == |xs| && sums.Length == counts.Length == |book|
    modifies assignments, sums, counts, minimum
    ensures assignments[..] == Assign(xs, book)
    ensures sums[..] == Sums(xs, Assign(xs, book), |book|, width)
    ensures counts[..] == Counts(Assign(xs, book), |book|)
    ensures minimum[..] == Distances(xs, book)
  {
    hide Nearest, Distance, Accumulated, Sum, Count;
    ghost var a, d := Assign(xs, book), Distances(xs, book);
    forall c | 0 <= c < sums.Length { sums[c] := Zero(width); }
    forall c | 0 <= c < counts.Length { counts[c] := 0; }
    AccumulateNone(xs, a, width, sums[..], counts[..]);
    for sample := 0 to |xs|
      invariant assignments[..sample] == a[..sample]
      invariant minimum[..sample] == d[..sample]
      invariant Accumulated(xs, a, width, sample, sums[..], counts[..])
    {
      var best, bestDistance := FindNearest(xs[sample], book);
      assert best == a[sample];
      ghost var sumsBefore, countsBefore := sums[..], counts[..];
      AccumulateOne(xs, a, width, sample, sumsBefore, countsBefore);
      assignments[sample] := best;
      counts[best] := counts[best] + 1;
      sums[best] := Add(sums[best], xs[sample]);
      minimum[sample] := bestDistance;
      assert sums[..] == sumsBefore[best := Add(sumsBefore[best], xs[sample])];
      assert counts[..] == countsBefore[best := countsBefore[best] + 1];
    }
    AccumulateAll(xs, a, width, sums[..], counts[..]);
  }

  method FindFarthest(distances: seq<real>) returns (farthest: nat)
    requires |distances| > 0
    ensures farthest == Farthest(distances)
  {
    farthest := 0;
    for i := 1 to |distances|
      invariant farthest < i
      invariant forall j :: 0 <= j < i ==> distances[j] <= distances[farthest]
      invariant forall j :: 0 <= j < farthest ==> distances[j] < distances[farthest]
    {
      if distances[i] > distances[farthest] {
        farthest := i;
      }
    }
    assert distances[farthest] == distances[Farthest(distances)];
  }

  method Average(sum: Point, count: nat) returns (mean: Point)
    requires count > 0
    ensures mean == Mean(sum, count)
  {
    mean := [];
    for coordinate := 0 to |sum|
      invariant mean == Mean(sum, count)[..coordinate]
    {
      mean := mean + [sum[coordinate] / (count as real)];
    }
  }

  lemma Regroup(a: seq<Point>, v: Point, b: seq<Point>)
    ensures (a + [v]) + b == a + ([v] + b)
  {
  }

  /** One centroid of the update pass; taking a sample for an empty cluster uses the sample up. */
  method UpdatedCentroid(xs: seq<Point>, sum: Point, count: nat, minimum: array<real>,
    ghost sums: seq<Point>, ghost counts: seq<nat>, ghost centroid: nat) returns (entry: Point)
    requires |xs| == minimum.Length > 0 && |sums| == |counts| && centroid < |counts|
    requires sum == sums[centroid] && count == counts[centroid]
    modifies minimum
    ensures Updated(xs, sums, counts, old(minimum[..]), centroid)
         == [entry] + Updated(xs, sums, counts, minimum[..], centroid + 1)
  {
    hide Updated;
    ghost var distances := minimum[..];
    UpdatedNext(xs, sums, counts, distances, centroid);
    if count == 0 {
      var sample := FindFarthest(minimum[..]);
      entry := xs[sample];
      minimum[sample] := 0.0;
      assert minimum[..] == distances[sample := 0.0];
    } else {
      entry := Average(sum, count);
    }
  }

  /** The update pass, in place: means, and the farthest samples for empty clusters. */
  method UpdateCentroids(xs: seq<Point>, codebook: array<Point>, base: nat, sums: array<Point>, counts: array<nat>,
      minimum: array<real>)
    requires |xs| == minimum.Length > 0 && sums.Length == counts.Length && base + counts.Length <= codebook.Length
    requires codebook != sums
    modifies codebook, minimum
    ensures codebook[base..base + counts.Length] == Updated(xs, sums[..], counts[..], old(minimum[..]), 0)
    ensures codebook[..base] == old(codebook[..base])
    ensures codebook[base + counts.Length..] == old(codebook[base + counts.Length..])
  {
    hide Updated;
    var k := counts.Length;
    ghost var goal := Updated(xs, sums[..], counts[..], minimum[..], 0);
    for centroid := 0 to k
      modifies codebook, minimum
      invariant codebook[base..base + centroid] + Updated(xs, sums[..], counts[..], minimum[..], centroid) == goal
      invariant codebook[..base] == old(codebook[..base]) && codebook[base + k..] == old(codebook[base + k..])
    {
      ghost var before, done := codebook[..], codebook[base..base + centroid];
      var entry := UpdatedCentroid(xs, sums[centroid], counts[centroid], minimum, sums[..], counts[..], centroid);
      SetEntry(before, base, centroid, k, entry);
      codebook[base + centroid] := entry;
      assert codebook[..] == before[base + centroid := entry];
      Regroup(done, entry, Updated(xs, sums[..], counts[..], minimum[..], centroid + 1));
    }
    UpdatedDone(xs, sums[..], counts[..], minimum[..]);
  }

  lemma UpdatedNext(xs: seq<Point>, sums: seq<Point>, counts: seq<nat>, distances: seq<real>, c: nat)
    requires |distances| == |xs| > 0 && |sums| == |counts| && c < |counts|
    ensures Updated(xs, sums, counts, distances, c)
         == if counts[c] == 0 then
              [xs[Farthest(distances)]] + Updated(xs, sums, counts, distances[Farthest(distances) := 0.0], c + 1)
            else [Mean(sums[c], counts[c])] + Updated(xs, sums, counts, distances, c + 1)
  {
  }

  lemma UpdatedDone(xs: seq<Point>, sums: seq<Point>, counts: seq<nat>, distances: seq<real>)
    requires |distances| == |xs| > 0 && |sums| == |counts|
    ensures Updated(xs, sums, counts, distances, |counts|) == []
  {
  }

  /** One assignment pass and one update pass. */
  method OneIteration(xs: seq<Point>, width: nat, codebook: array<Point>, base: nat,
    assignments: array<nat>, sums: array<Point>, counts: array<nat>, minimum: array<real>)
    requires base + counts.Length <= codebook.Length && Trainable(xs, codebook[base..base + counts.Length], width)
    requires assignments.Length == minimum.Length == |xs| && sums.Length == counts.Length
    requires assignments != counts && codebook != sums
    modifies codebook, assignments, sums, counts, minimum
    ensures Step(xs, old(codebook[base..base + counts.Length]), codebook[base..base + counts.Length], width)
    ensures codebook[..base] == old(codebook[..base])
    ensures codebook[base + counts.Length..] == old(codebook[base + counts.Length..])
  {
    hide Updated, Sums, Counts, Distances, Assign, Step;
    IterateIsStep(xs, codebook[base..base + counts.Length], width);
    AssignSamples(xs, width, codebook[base..base + counts.Length], assignments, sums, counts, minimum);
    UpdateCentroids(xs, codebook, base, sums, counts, minimum);
  }

  /** Seeding and all iterations for one subspace: the codebooks gone through, from the seeds to the result. */
  method TrainSubspace(xs: seq<Point>, width: nat, codebook: array<Point>, base: nat, k: nat, iterations: nat,
    assignments: array<nat>, minimum: array<real>, generator: Generator)
    returns (ghost books: Trace)
    requires |xs| > 0 && Uniform(xs, width) && k > 0 && base + k <= codebook.Length
    requires assignments.Length == minimum.Length == |xs|
    modifies codebook, assignments, minimum, generator
    ensures Traced(xs, books, width) && |books| == iterations + 1
    ensures |books[0]| == k && AllFrom(books[0], xs) && old(generator.drawn) <= generator.drawn
    ensures Spread(books[0], generator.drawn[|old(generator.drawn)|..], xs, width)
    ensures codebook[base..base + k] == books[iterations]
    ensures codebook[..base] == old(codebook[..base]) && codebook[base + k..] == old(codebook[base + k..])
  {
    hide Spread, Traced;
    SeedCentroids(xs, width, codebook, base, k, minimum, generator);
    FromIsUniform(codebook[base..base + k], xs, width);
    var sums := new Point[k](_ => []);
    var counts := new nat[k];
    books := AllIterations(xs, width, codebook, base, iterations, assignments, sums, counts, minimum);
  }

  method AllIterations(xs: seq<Point>, width: nat, codebook: array<Point>, base: nat, iterations: nat,
    assignments: array<nat>, sums: array<Point>, counts: array<nat>, minimum: array<real>)
    returns (ghost books: Trace)
    requires base + counts.Length <= codebook.Length && Trainable(xs, codebook[base..base + counts.Length], width)
    requires assignments.Length == minimum.Length == |xs| && sums.Length == counts.Length
    requires assignments != counts && codebook != sums
    modifies codebook, assignments, sums, counts, minimum
    ensures Traced(xs, books, width) && |books| == iterations + 1
    ensures books[0] == old(codebook[base..base + counts.Length])
    ensures codebook[base..base + counts.Length] == books[iterations]
    ensures codebook[..base] == old(codebook[..base])
    ensures codebook[base + counts.Length..] == old(codebook[base + counts.Length..])
  {
    hide Step, Trainable, Traced;
    var k := counts.Length;
    books := [codebook[base..base + k]];
    TraceStarts(xs, books[0], width);
    for iteration := 0 to iterations
      invariant Traced(xs, books, width) && |books| == iteration + 1 && books[0] == old(codebook[base..base + k])
      invariant codebook[base..base + k] == books[iteration]
      invariant codebook[..base] == old(codebook[..base]) && codebook[base + k..] == old(codebook[base + k..])
    {
      TraceShape(xs, books, width, iteration);
      OneIteration(xs, width, codebook, base, assignments, sums, counts, minimum);
      TraceMore(xs, books, codebook[base..base + k], width);
      books := books + [codebook[base..base + k]];
    }
  }

  lemma TraceStarts(xs: seq<Point>, book: seq<Point>, width: nat)
    requires Trainable(xs, book, width)
    ensures Traced(xs, [book], width)
  {
  }

  lemma TraceMore(xs: seq<Point>, books: Trace, next: seq<Point>, width: nat)
    requires Traced(xs, books, width) && Step(xs, books[|books| - 1], next, width)
    ensures Traced(xs, books + [next], width)
  {
    hide Step, Trainable;
    var more := books + [next];
    forall t | 0 < t < |more| ensures Step(xs, more[t - 1], more[t], width) {
      if t < |books| {
        assert Step(xs, books[t - 1], books[t], width);
      }
    }
  }
}
