/**
 * Blockwise exact search: the corpus is scored one block of rows at a time, each block keeps its
 * own best candidates and they are merged into a running best list. Whatever the block size, the
 * ids returned are those of sorting the whole corpus by score, best first, ties by smaller id.
 */
module TopK {
  import opened Outcomes
  import opened Ranking
  import opened Sequences
  import Vectors

  type Point = Vectors.Point

  datatype Error = ShapeMismatch | PartitionOutOfRange | DimensionMismatch | ZeroStep

  /** A two-dimensional array: the width is kept apart because there may be no row to show it. */
  datatype Matrix<T> = Matrix(rows: seq<seq<T>>, width: nat) {
    predicate Valid() {
      forall r :: 0 <= r < |rows| ==> |rows[r]| == width
    }
  }

  // ---------- one row ----------

  function Zip(scores: seq<real>, ids: seq<nat>): (row: seq<Candidate>)
    requires |scores| == |ids|
    ensures |row| == |scores|
    ensures forall i :: 0 <= i < |row| ==> row[i] == Candidate(scores[i], ids[i])
  {
    seq(|scores|, i requires 0 <= i < |scores| => Candidate(scores[i], ids[i]))
  }

  function Scores(row: seq<Candidate>): (s: seq<real>)
    ensures |s| == |row| && forall i :: 0 <= i < |s| ==> s[i] == row[i].score
  {
    seq(|row|, i requires 0 <= i < |row| => row[i].score)
  }

  function Ids(row: seq<Candidate>): (s: seq<nat>)
    ensures |s| == |row| && forall i :: 0 <= i < |s| ==> s[i] == row[i].id
  {
    seq(|row|, i requires 0 <= i < |row| => row[i].id)
  }

  lemma ZipScoresIds(row: seq<Candidate>)
    ensures Zip(Scores(row), Ids(row)) == row
  {
  }

  /** The entries scoring above (`equal` false) or exactly at (`equal` true) the threshold, in order. */
  function Scoring(row: seq<Candidate>, threshold: real, equal: bool): (r: seq<Candidate>)
    ensures forall c :: multiset(r)[c] ==
                        if Selects(c, threshold, equal) then multiset(row)[c] else 0
    decreases |row|
  {
    if |row| == 0 then []
    else
      assert row == [row[0]] + row[1..];
      (if Selects(row[0], threshold, equal) then [row[0]] else []) + Scoring(row[1..], threshold, equal)
  }

  predicate Selects(c: Candidate, threshold: real, equal: bool) {
    if equal then c.score == threshold else c.score > threshold
  }

  predicate NoneScoresMore(chosen: multiset<Candidate>, others: multiset<Candidate>) {
    forall b, c :: b in chosen && c in others ==> b.score >= c.score
  }

  function Without(s: seq<Candidate>, i: nat): (r: seq<Candidate>)
    requires i < |s|
    ensures |r| == |s| - 1 && multiset(s) == multiset(r) + multiset{s[i]}
  {
    assert s == s[..i] + [s[i]] + s[i + 1..];
    s[..i] + s[i + 1..]
  }

  lemma MoveBest(top: seq<Candidate>, rest: seq<Candidate>, i: nat)
    requires i < |rest| && NoneScoresMore(multiset(top), multiset(rest))
    requires forall j :: 0 <= j < |rest| ==> rest[i].score >= rest[j].score
    ensures NoneScoresMore(multiset(top + [rest[i]]), multiset(Without(rest, i)))
    ensures multiset(top + [rest[i]]) + multiset(Without(rest, i)) == multiset(top) + multiset(rest)
  {
    var remaining := multiset(Without(rest, i));
    hide Without;
    assert rest[i] in multiset(rest);
    forall c: Candidate | c in remaining ensures c in multiset(rest) && rest[i].score >= c.score {
      assert c in multiset(rest);
      assert c in rest;
    }
  }

  method HighestScore(row: seq<Candidate>) returns (best: nat)
    requires |row| > 0
    ensures best < |row| && forall j :: 0 <= j < |row| ==> row[best].score >= row[j].score
  {
    best := 0;
    var i := 1;
    while i < |row|
      invariant best < i <= |row|
      invariant forall j :: 0 <= j < i ==> row[best].score >= row[j].score
    {
      if row[i].score > row[best].score {
        best := i;
      }
      i := i + 1;
    }
  }

  lemma NothingChosen(row: seq<Candidate>)
    ensures NoneScoresMore(multiset([]), multiset(row))
  {
  }

  /**
   * The partition step: some `take` entries no left-out entry outscores, in no promised order and
   * with no promise about which of several entries at the boundary score are among them.
   */
  method PartitionTop(row: seq<Candidate>, take: nat) returns (top: seq<Candidate>)
    requires 0 < take < |row|
    ensures |top| == take && multiset(top) <= multiset(row)
    ensures NoneScoresMore(multiset(top), multiset(row) - multiset(top))
  {
    hide NoneScoresMore, Without;
    top := [];
    var rest := row;
    NothingChosen(row);
    while |top| < take
      invariant |top| <= take && |top| + |rest| == |row|
      invariant multiset(top) + multiset(rest) == multiset(row)
      invariant NoneScoresMore(multiset(top), multiset(rest))
    {
      var best := HighestScore(rest);
      MoveBest(top, rest, best);
      top, rest := top + [rest[best]], Without(rest, best);
    }
    assert multiset(row) - multiset(top) == multiset(rest);
  }

  method LowestScore(row: seq<Candidate>) returns (lowest: real)
    requires |row| > 0
    ensures exists i :: 0 <= i < |row| && row[i].score == lowest
    ensures forall c :: c in multiset(row) ==> c.score >= lowest
  {
    lowest := row[0].score;
    var i := 1;
    while i < |row|
      invariant 1 <= i <= |row|
      invariant exists j :: 0 <= j < |row| && row[j].score == lowest
      invariant forall j :: 0 <= j < i ==> row[j].score >= lowest
    {
      if row[i].score < lowest {
        lowest := row[i].score;
      }
      i := i + 1;
    }
  }

  /** What lies above the threshold was all chosen, and the entry at the threshold is not among it. */
  lemma StrictIsChosen(row: seq<Candidate>, top: multiset<Candidate>, t: real, e: Candidate)
    requires top <= multiset(row) && NoneScoresMore(top, multiset(row) - top)
    requires e in top && e.score == t
    ensures multiset(Scoring(row, t, false)) <= top - multiset{e}
  {
    var strict := multiset(Scoring(row, t, false));
    hide Scoring;
    forall c ensures strict[c] <= (top - multiset{e})[c] {
      if c.score > t {
        assert c !in multiset(row) - top;
      }
    }
  }

  lemma ChosenIsStrictOrTied(row: seq<Candidate>, top: multiset<Candidate>, t: real)
    requires top <= multiset(row)
    requires forall c: Candidate :: c in top ==> c.score >= t
    ensures top <= multiset(Scoring(row, t, false)) + multiset(Scoring(row, t, true))
  {
    hide Scoring;
  }

  /**
   * At the partition's lowest score: fewer than `take` entries lie above it, and together with the
   * ties there are at least `take`.
   */
  lemma ThresholdSplits(row: seq<Candidate>, top: seq<Candidate>, t: real)
    requires multiset(top) <= multiset(row) && NoneScoresMore(multiset(top), multiset(row) - multiset(top))
    requires exists i :: 0 <= i < |top| && top[i].score == t
    requires forall c: Candidate :: c in multiset(top) ==> c.score >= t
    ensures |Scoring(row, t, false)| < |top| <= |Scoring(row, t, false)| + |Scoring(row, t, true)|
  {
    hide Scoring, NoneScoresMore;
    var i :| 0 <= i < |top| && top[i].score == t;
    assert top[i] in multiset(top);
    StrictIsChosen(row, multiset(top), t, top[i]);
    SubmultisetSize(multiset(Scoring(row, t, false)), multiset(top) - multiset{top[i]});
    ChosenIsStrictOrTied(row, multiset(top), t);
    SubmultisetSize(multiset(top), multiset(Scoring(row, t, false)) + multiset(Scoring(row, t, true)));
  }

  lemma StrictAndTiesWithin(row: seq<Candidate>, t: real, kept: multiset<Candidate>)
    requires kept <= multiset(Scoring(row, t, true))
    ensures multiset(Scoring(row, t, false)) + kept <= multiset(row)
  {
    hide Scoring;
  }

  lemma StrictAndTiesDominate(row: seq<Candidate>, t: real, kept: multiset<Candidate>)
    requires kept <= multiset(Scoring(row, t, true)) && Dominates(kept, multiset(Scoring(row, t, true)))
    ensures Dominates(multiset(Scoring(row, t, false)) + kept, multiset(row))
  {
    var strict, ties := multiset(Scoring(row, t, false)), multiset(Scoring(row, t, true));
    hide Scoring;
    forall b, c | b in strict + kept && c in multiset(row) - (strict + kept)
      ensures AtLeast(b, c)
    {
      if b.score <= t && c.score >= t {
        assert b in kept && c in ties - kept;
      }
    }
  }

  /** Everything above the threshold, and of the ties as many of the smallest ids as are still needed. */
  lemma ThresholdPicksTopK(row: seq<Candidate>, t: real, chosen: seq<Candidate>, take: nat)
    requires |Scoring(row, t, false)| <= take <= |Scoring(row, t, false)| + |Scoring(row, t, true)|
    requires chosen == Scoring(row, t, false) + Leading(Scoring(row, t, true), take - |Scoring(row, t, false)|)
    ensures IsTopK(Sorted(chosen), multiset(row), take)
  {
    hide Scoring, Dominates, Leading, Sorted;
    var ties, needed := Scoring(row, t, true), take - |Scoring(row, t, false)|;
    var kept := Leading(ties, needed);
    LeadingIsTopK(ties, needed);
    SortedRanks(chosen);
    StrictAndTiesWithin(row, t, multiset(kept));
    StrictAndTiesDominate(row, t, multiset(kept));
    assert multiset(chosen) == multiset(Scoring(row, t, false)) + multiset(kept);
    SubmultisetSize(multiset(chosen), multiset(row));
  }

  lemma WholeIsTopK(row: seq<Candidate>, k: nat)
    requires k >= |row|
    ensures IsTopK(Sorted(row), multiset(row), k)
  {
    SortedRanks(row);
  }

  /** One row: exactly the leading entries of the row sorted, repetitions and ties included. */
  method SelectRow(row: seq<Candidate>, k: nat) returns (selected: Result<seq<Candidate>, Error>)
    ensures selected.Err? <==> k == 0 && |row| > 0
    ensures selected.Ok? ==> selected.value == Leading(row, k)
    ensures selected.Err? ==> selected.error == PartitionOutOfRange
  {
    hide Scoring, Dominates, NoneScoresMore, Sorted, Leading;
    var take := Min(k, |row|);
    var candidates := row;
    if take != |row| {
      if take == 0 {
        return Err(PartitionOutOfRange);
      }
      var provisional := PartitionTop(row, take);
      var threshold := LowestScore(provisional);
      ThresholdSplits(row, provisional, threshold);
      var strict, ties := Scoring(row, threshold, false), Scoring(row, threshold, true);
      var needed := take - |strict|;
      candidates := strict + Leading(ties, needed);
      ThresholdPicksTopK(row, threshold, candidates, take);
    } else {
      WholeIsTopK(row, k);
    }
    LeadingIsTopK(row, k);
    TopKUnique(Sorted(candidates), Leading(row, k), multiset(row), k);
    selected := Ok(Sorted(candidates));
  }

  // ---------- all rows ----------

  ghost predicate RowSelected(scores: seq<real>, ids: seq<nat>, bestScores: seq<real>, bestIds: seq<nat>, k: nat) {
    && |scores| == |ids| && |bestScores| == |bestIds| == Min(k, |ids|)
    && Zip(bestScores, bestIds) == Leading(Zip(scores, ids), k)
  }

  /** Every row of the result is the leading entries of its row. */
  method SelectTopK(scores: Matrix<real>, ids: Matrix<nat>, k: nat)
    returns (selected: Result<(Matrix<real>, Matrix<nat>), Error>)
    requires scores.Valid() && ids.Valid()
    ensures |scores.rows| != |ids.rows| || scores.width != ids.width ==> selected == Err(ShapeMismatch)
    ensures |scores.rows| == |ids.rows| && scores.width == ids.width ==>
              && (selected.Err? <==> k == 0 && scores.width > 0 && |scores.rows| > 0)
              && (selected.Err? ==> selected.error == PartitionOutOfRange)
    ensures selected.Ok? ==>
              && var (bestScores, bestIds) := selected.value;
              && bestScores.Valid() && bestIds.Valid()
              && |bestScores.rows| == |bestIds.rows| == |scores.rows| == |ids.rows|
              && bestScores.width == bestIds.width == Min(k, ids.width)
              && forall r :: 0 <= r < |ids.rows| ==>
                   RowSelected(scores.rows[r], ids.rows[r], bestScores.rows[r], bestIds.rows[r], k)
  {
    hide Leading;
    if |scores.rows| != |ids.rows| || scores.width != ids.width {
      return Err(ShapeMismatch);
    }
    var orderedScores: seq<seq<real>>, orderedIds: seq<seq<nat>> := [], [];
    var row := 0;
    while row < |scores.rows|
      invariant 0 <= row <= |scores.rows| && |orderedScores| == |orderedIds| == row
      invariant row > 0 ==> k > 0 || scores.width == 0
      invariant forall r :: 0 <= r < row ==>
        RowSelected(scores.rows[r], ids.rows[r], orderedScores[r], orderedIds[r], k)
    {
      var entries := Zip(scores.rows[row], ids.rows[row]);
      var best := SelectRow(entries, k);
      if best.Err? {
        return Err(best.error);
      }
      LeadingLength(entries, k);
      ZipScoresIds(best.value);
      orderedScores, orderedIds := orderedScores + [Scores(best.value)], orderedIds + [Ids(best.value)];
      row := row + 1;
    }
    selected := Ok((Matrix(orderedScores, Min(k, scores.width)), Matrix(orderedIds, Min(k, scores.width))));
  }

  lemma LeadingLength(row: seq<Candidate>, k: nat)
    ensures |Leading(row, k)| == Min(k, |row|)
  {
    SortedRanks(row);
  }

  // ---------- all blocks ----------

  /** The candidates of rows `begin` to `end` for one query: inner product and row number. */
  function Scored(query: Point, corpus: Matrix<real>, begin: nat, end: nat): (row: seq<Candidate>)
    requires corpus.Valid() && |query| == corpus.width && begin <= end <= |corpus.rows|
    ensures |row| == end - begin
  {
    seq(end - begin, i requires 0 <= i < end - begin =>
      Candidate(Vectors.Dot(query, corpus.rows[begin + i]), begin + i))
  }

  /** The best of all earlier rows merged with the best of the next block is the best of both. */
  lemma MergeBlock(query: Point, corpus: Matrix<real>, begin: nat, end: nat, k: nat)
    requires corpus.Valid() && |query| == corpus.width && begin <= end <= |corpus.rows|
    ensures Leading(Leading(Scored(query, corpus, 0, begin), k) + Leading(Scored(query, corpus, begin, end), k), k)
            == Leading(Scored(query, corpus, 0, end), k)
  {
    var earlier, block := Scored(query, corpus, 0, begin), Scored(query, corpus, begin, end);
    assert Scored(query, corpus, 0, end) == earlier + block;
    hide Scored, Leading;
    var a, b := Leading(earlier, k), Leading(block, k);
    var best := Leading(a + b, k);
    LeadingIsTopK(earlier, k);
    LeadingIsTopK(block, k);
    LeadingIsTopK(a + b, k);
    assert multiset(a + b) == multiset(a) + multiset(b);
    TopKOfMerged(best, a, b, multiset(earlier), multiset(block), k);
    assert multiset(earlier + block) == multiset(earlier) + multiset(block);
    LeadingIsTopK(earlier + block, k);
    TopKUnique(best, Leading(earlier + block, k), multiset(earlier + block), k);
  }

  /** Rows set side by side, one matrix to the right of the other. */
  function Beside<T>(a: Matrix<T>, b: Matrix<T>): (m: Matrix<T>)
    requires a.Valid() && b.Valid() && |a.rows| == |b.rows|
    ensures m.Valid() && |m.rows| == |a.rows| && m.width == a.width + b.width
  {
    Matrix(seq(|a.rows|, r requires 0 <= r < |a.rows| => a.rows[r] + b.rows[r]), a.width + b.width)
  }

  function BlockScores(corpus: Matrix<real>, queries: Matrix<real>, begin: nat, end: nat): (m: Matrix<real>)
    requires corpus.Valid() && queries.Valid() && queries.width == corpus.width && begin <= end <= |corpus.rows|
    ensures m.Valid() && |m.rows| == |queries.rows| && m.width == end - begin
  {
    Matrix(seq(|queries.rows|, q requires 0 <= q < |queries.rows| =>
             Scores(Scored(queries.rows[q], corpus, begin, end))), end - begin)
  }

  function BlockIds(count: nat, begin: nat, end: nat): (m: Matrix<nat>)
    requires begin <= end
    ensures m.Valid() && |m.rows| == count && m.width == end - begin
  {
    Matrix(seq(count, q => seq(end - begin, i => begin + i)), end - begin)
  }

  lemma BlockRow(corpus: Matrix<real>, queries: Matrix<real>, begin: nat, end: nat, q: nat)
    requires corpus.Valid() && queries.Valid() && queries.width == corpus.width && begin <= end <= |corpus.rows|
    requires q < |queries.rows|
    ensures Zip(BlockScores(corpus, queries, begin, end).rows[q], BlockIds(|queries.rows|, begin, end).rows[q])
            == Scored(queries.rows[q], corpus, begin, end)
  {
  }

  lemma ZipBeside(a: seq<real>, b: seq<real>, c: seq<nat>, d: seq<nat>)
    requires |a| == |c| && |b| == |d|
    ensures Zip(a + b, c + d) == Zip(a, c) + Zip(b, d)
  {
  }

  /** Row q of the running result is the best k of the rows before `end`. */
  ghost predicate BestSoFar(corpus: Matrix<real>, query: Point, scores: seq<real>, ids: seq<nat>, end: nat, k: nat)
    requires corpus.Valid() && |query| == corpus.width && end <= |corpus.rows|
  {
    && |scores| == |ids| == Min(k, end)
    && Zip(scores, ids) == Leading(Scored(query, corpus, 0, end), k)
  }

  lemma RowMerged(corpus: Matrix<real>, query: Point, begin: nat, end: nat, k: nat, bestScores: seq<real>,
                  bestIds: seq<nat>, blockScores: seq<real>, blockIds: seq<nat>, localScores: seq<real>,
                  localIds: seq<nat>, newScores: seq<real>, newIds: seq<nat>)
    requires corpus.Valid() && |query| == corpus.width && begin <= end <= |corpus.rows|
    requires BestSoFar(corpus, query, bestScores, bestIds, begin, k)
    requires RowSelected(blockScores, blockIds, localScores, localIds, k)
    requires Zip(blockScores, blockIds) == Scored(query, corpus, begin, end)
    requires RowSelected(bestScores + localScores, bestIds + localIds, newScores, newIds, k)
    ensures BestSoFar(corpus, query, newScores, newIds, end, k)
  {
    hide Leading, Scored;
    ZipBeside(bestScores, localScores, bestIds, localIds);
    MergeBlock(query, corpus, begin, end, k);
  }

  ghost predicate AllBestSoFar(corpus: Matrix<real>, queries: Matrix<real>, scores: Matrix<real>, ids: Matrix<nat>,
                               end: nat, k: nat)
    requires corpus.Valid() && queries.Valid() && queries.width == corpus.width && end <= |corpus.rows|
  {
    && scores.Valid() && ids.Valid() && scores.width == ids.width == Min(k, end)
    && |scores.rows| == |ids.rows| == |queries.rows|
    && forall q :: 0 <= q < |queries.rows| ==>
         BestSoFar(corpus, queries.rows[q], scores.rows[q], ids.rows[q], end, k)
  }

  /** One block: scored, its own best selected, and those merged into the best so far. */
  method MergeNextBlock(corpus: Matrix<real>, queries: Matrix<real>, begin: nat, end: nat, k: nat,
                        bestScores: Matrix<real>, bestIds: Matrix<nat>)
    returns (merged: Result<(Matrix<real>, Matrix<nat>), Error>)
    requires corpus.Valid() && queries.Valid() && queries.width == corpus.width && begin < end <= |corpus.rows|
    requires AllBestSoFar(corpus, queries, bestScores, bestIds, begin, k)
    ensures merged.Err? <==> k == 0 && |queries.rows| > 0
    ensures merged.Ok? ==> AllBestSoFar(corpus, queries, merged.value.0, merged.value.1, end, k)
  {
    hide Leading, Scored, Zip, BlockScores, BlockIds, RowSelected, BestSoFar;
    var scores := BlockScores(corpus, queries, begin, end);
    var ids := BlockIds(|queries.rows|, begin, end);
    var local := SelectTopK(scores, ids, k);
    if local.Err? {
      return Err(local.error);
    }
    var (localScores, localIds) := local.value;
    merged := SelectTopK(Beside(bestScores, localScores), Beside(bestIds, localIds), k);
    forall q | 0 <= q < |queries.rows|
      ensures BestSoFar(corpus, queries.rows[q], merged.value.0.rows[q], merged.value.1.rows[q], end, k)
    {
      BlockRow(corpus, queries, begin, end, q);
      RowMerged(corpus, queries.rows[q], begin, end, k, bestScores.rows[q], bestIds.rows[q], scores.rows[q],
                ids.rows[q], localScores.rows[q], localIds.rows[q], merged.value.0.rows[q], merged.value.1.rows[q]);
    }
  }

  // ---------- what the best rows are ----------

  /** Row `id` comes before row `r`: a larger inner product, or the same and a smaller number. */
  predicate Beats(corpus: Matrix<real>, query: Point, id: nat, r: nat)
    requires corpus.Valid() && |query| == corpus.width && id < |corpus.rows| && r < |corpus.rows|
  {
    || Vectors.Dot(query, corpus.rows[id]) > Vectors.Dot(query, corpus.rows[r])
    || (Vectors.Dot(query, corpus.rows[id]) == Vectors.Dot(query, corpus.rows[r]) && id < r)
  }

  /** As many different rows as there are, up to k, each before all that are listed later or not at all. */
  predicate IsBest(corpus: Matrix<real>, query: Point, ids: seq<nat>, k: nat)
    requires corpus.Valid() && |query| == corpus.width
  {
    && |ids| == (if k < |corpus.rows| then k else |corpus.rows|)
    && (forall a :: 0 <= a < |ids| ==> ids[a] < |corpus.rows|)
    && (forall a, b :: 0 <= a < b < |ids| ==> ids[a] != ids[b])
    && forall a, r :: 0 <= a < |ids| && 0 <= r < |corpus.rows| && r !in ids[..a + 1] ==>
         Beats(corpus, query, ids[a], r)
  }

  lemma ScoredAt(query: Point, corpus: Matrix<real>, begin: nat, end: nat, i: nat)
    requires corpus.Valid() && |query| == corpus.width && begin <= end <= |corpus.rows| && i < end - begin
    ensures Scored(query, corpus, begin, end)[i].id == begin + i
    ensures Scored(query, corpus, begin, end)[i].score == Vectors.Dot(query, corpus.rows[begin + i])
  {
  }

  lemma {:induction false} ScoredOnce(query: Point, corpus: Matrix<real>, end: nat)
    requires corpus.Valid() && |query| == corpus.width && end <= |corpus.rows|
    ensures forall c :: multiset(Scored(query, corpus, 0, end))[c] <= 1
    decreases end
  {
    hide Scored;
    if end > 0 {
      ScoredOnce(query, corpus, end - 1);
      var all, front := Scored(query, corpus, 0, end), Scored(query, corpus, 0, end - 1);
      forall i | 0 <= i < end - 1 ensures all[i] == front[i] && front[i].id < end - 1 {
        ScoredAt(query, corpus, 0, end, i);
        ScoredAt(query, corpus, 0, end - 1, i);
      }
      ScoredAt(query, corpus, 0, end, end - 1);
      assert all == front + [all[end - 1]];
    }
  }

  /** Of different candidates the one ranked before has the larger score, or the same score and the smaller id. */
  lemma LeadingIsBest(corpus: Matrix<real>, query: Point, k: nat)
    requires corpus.Valid() && |query| == corpus.width
    ensures IsBest(corpus, query, Ids(Leading(Scored(query, corpus, 0, |corpus.rows|), k)), k)
  {
    hide Scored, Leading, Beats, Dominates, Ranked;
    var n := |corpus.rows|;
    var all := Scored(query, corpus, 0, n);
    var best := Leading(all, k);
    var ids := Ids(best);
    LeadingIsTopK(all, k);
    ScoredOnce(query, corpus, n);
    forall i | 0 <= i < n ensures all[i].id == i {
      ScoredAt(query, corpus, 0, n, i);
    }
    forall a | 0 <= a < |best| ensures ids[a] < n && best[a] == all[ids[a]] {
      assert best[a] in multiset(best);
      assert best[a] in multiset(all);
      var i :| 0 <= i < n && all[i] == best[a];
    }
    forall a, b | 0 <= a < b < |ids| ensures ids[a] != ids[b] {
      if ids[a] == ids[b] {
        Twice(best, a, b);
        assert false;
      }
    }
    forall a, r | 0 <= a < |ids| && 0 <= r < n && r !in ids[..a + 1] ensures Beats(corpus, query, ids[a], r) {
      LaterOrLeftOut(best, all, k, a, r);
      BeatsWhenRanked(corpus, query, ids[a], r);
    }
  }

  lemma BeatsWhenRanked(corpus: Matrix<real>, query: Point, id: nat, r: nat)
    requires corpus.Valid() && |query| == corpus.width && id < |corpus.rows| && r < |corpus.rows| && id != r
    requires var all := Scored(query, corpus, 0, |corpus.rows|); AtLeast(all[id], all[r])
    ensures Beats(corpus, query, id, r)
  {
    hide Scored;
    ScoredAt(query, corpus, 0, |corpus.rows|, id);
    ScoredAt(query, corpus, 0, |corpus.rows|, r);
  }

  /** Candidate r of `all`, listed later or not at all, is no better than entry a. */
  lemma LaterOrLeftOut(best: seq<Candidate>, all: seq<Candidate>, k: nat, a: nat, r: nat)
    requires IsTopK(best, multiset(all), k) && a < |best| && r < |all|
    requires forall i :: 0 <= i < |all| ==> all[i].id == i
    requires forall b :: 0 <= b < |best| ==> best[b].id < |all| && best[b] == all[best[b].id]
    requires r !in Ids(best)[..a + 1]
    ensures AtLeast(best[a], all[r]) && best[a].id != r
  {
    hide AtLeast;
    var ids := Ids(best);
    assert forall c :: 0 <= c <= a ==> ids[..a + 1][c] == ids[c] == best[c].id;
    if r in ids {
      var b :| 0 <= b < |ids| && ids[b] == r;
    } else {
      assert all[r] in multiset(all) && best[a] in multiset(best);
      assert forall b :: 0 <= b < |best| ==> ids[b] == best[b].id && best[b] != all[r];
      LeftOut(best, multiset(all), k, best[a], all[r]);
    }
  }

  /**
   * The blockwise search. For every block size of at least one, every row of the result lists the k
   * rows of the whole corpus with the largest inner products, best first, ties by smaller row number.
   */
  method ExactTopKBlock(corpus: Matrix<real>, queries: Matrix<real>, k: nat, blockRows: int)
    returns (found: Result<Matrix<nat>, Error>)
    requires corpus.Valid() && queries.Valid()
    ensures found.Err? <==>
              || blockRows == 0
              || (blockRows > 0 && |corpus.rows| > 0
                  && (queries.width != corpus.width || (k == 0 && |queries.rows| > 0)))
    ensures found.Ok? ==> found.value.Valid() && |found.value.rows| == |queries.rows|
    ensures found.Ok? && (blockRows < 0 || |corpus.rows| == 0) ==> found.value.width == 0
    ensures found.Ok? && blockRows > 0 && |corpus.rows| > 0 ==>
              && found.value.width == Min(k, |corpus.rows|)
              && forall q :: 0 <= q < |queries.rows| ==> IsBest(corpus, queries.rows[q], found.value.rows[q], k)
  {
    hide Leading, Scored, Zip, IsBest;
    if blockRows == 0 {
      return Err(ZeroStep);
    }
    var bestScores: Matrix<real> := Matrix(seq(|queries.rows|, q => []), 0);
    var bestIds: Matrix<nat> := Matrix(seq(|queries.rows|, q => []), 0);
    if blockRows < 0 || |corpus.rows| == 0 {
      return Ok(bestIds);
    }
    if queries.width != corpus.width {
      return Err(DimensionMismatch);
    }
    var begin := 0;
    forall q | 0 <= q < |queries.rows|
      ensures BestSoFar(corpus, queries.rows[q], [], [], 0, k)
    {
      NothingYet(corpus, queries.rows[q], k);
    }
    while begin < |corpus.rows|
      invariant 0 <= begin && (begin > 0 ==> k > 0 || |queries.rows| == 0)
      invariant AllBestSoFar(corpus, queries, bestScores, bestIds, Min(begin, |corpus.rows|), k)
      decreases |corpus.rows| - begin
    {
      var end := Min(|corpus.rows|, begin + blockRows);
      var merged := MergeNextBlock(corpus, queries, begin, end, k, bestScores, bestIds);
      if merged.Err? {
        return Err(merged.error);
      }
      bestScores, bestIds := merged.value.0, merged.value.1;
      begin := begin + blockRows;
    }
    forall q | 0 <= q < |queries.rows|
      ensures IsBest(corpus, queries.rows[q], bestIds.rows[q], k)
    {
      IdsOfZip(bestScores.rows[q], bestIds.rows[q]);
      LeadingIsBest(corpus, queries.rows[q], k);
    }
    found := Ok(bestIds);
  }

  lemma NothingYet(corpus: Matrix<real>, query: Point, k: nat)
    requires corpus.Valid() && |query| == corpus.width
    ensures BestSoFar(corpus, query, [], [], 0, k)
  {
  }

  lemma IdsOfZip(scores: seq<real>, ids: seq<nat>)
    requires |scores| == |ids|
    ensures Ids(Zip(scores, ids)) == ids
  {
  }
}
