/**
 * The bounded edit distance behind "did you mean": two table rows, filled in turn, given up on as
 * soon as a whole row exceeds the limit; and the suggestions made from it.
 */
module EditDistance {
  import opened Sequences

  // ---------- single edits ----------

  /** b is a with one character put in at i. */
  predicate Insertion(a: string, b: string, i: nat) {
    i <= |a| && |b| == |a| + 1 && b == a[..i] + [b[i]] + a[i..]
  }

  predicate Substitution(a: string, b: string, i: nat) {
    i < |a| == |b| && a[i] != b[i] && b == a[i := b[i]]
  }

  predicate EditAt(a: string, b: string, i: nat) {
    Insertion(a, b, i) || Insertion(b, a, i) || Substitution(a, b, i)
  }

  /** One character inserted, deleted or replaced. */
  ghost predicate OneEdit(a: string, b: string) {
    exists i: nat :: EditAt(a, b, i)
  }

  ghost predicate Reaches(a: string, b: string, edits: nat)
    decreases edits
  {
    if edits == 0 then a == b else exists c :: OneEdit(a, c) && Reaches(c, b, edits - 1)
  }

  // ---------- the recursion the table follows ----------

  function Cost(x: char, y: char): nat {
    if x == y then 0 else 1
  }

  function Init(a: string): string
    requires |a| > 0
  {
    a[..|a| - 1]
  }

  function Last(a: string): char
    requires |a| > 0
  {
    a[|a| - 1]
  }

  function Levenshtein(a: string, b: string): nat
    decreases |a| + |b|
  {
    if |a| == 0 then |b|
    else if |b| == 0 then |a|
    else Min(Min(Levenshtein(Init(a), b), Levenshtein(a, Init(b))) + 1,
             Levenshtein(Init(a), Init(b)) + Cost(Last(a), Last(b)))
  }

  lemma {:induction false} Symmetric(a: string, b: string)
    ensures Levenshtein(a, b) == Levenshtein(b, a)
    decreases |a| + |b|
  {
    if |a| > 0 && |b| > 0 {
      Symmetric(Init(a), b);
      Symmetric(a, Init(b));
      Symmetric(Init(a), Init(b));
    }
  }

  lemma {:induction false} NoChange(a: string)
    ensures Levenshtein(a, a) == 0
    decreases |a|
  {
    if |a| > 0 {
      NoChange(Init(a));
    }
  }

  lemma {:induction false} LengthDifference(a: string, b: string)
    ensures Levenshtein(a, b) >= |b| - |a|
    decreases |a| + |b|
  {
    if |a| > 0 && |b| > 0 {
      LengthDifference(Init(a), b);
      LengthDifference(a, Init(b));
      LengthDifference(Init(a), Init(b));
    }
  }

  // ---------- it is the least number of edits ----------

  /** One more character at the end of one string moves the distance by at most one. */
  lemma {:induction false} LastCharacter(a: string, c: char, z: string)
    ensures Levenshtein(a, z) <= Levenshtein(a + [c], z) + 1
    ensures Levenshtein(a + [c], z) <= Levenshtein(a, z) + 1
    decreases |z|
  {
    assert Init(a + [c]) == a;
    if |z| > 0 {
      LastCharacter(a, c, Init(z));
    }
  }

  lemma {:induction false} InsertedIsClose(a: string, b: string, i: nat, z: string)
    requires Insertion(a, b, i)
    ensures Levenshtein(a, z) <= Levenshtein(b, z) + 1
    ensures Levenshtein(b, z) <= Levenshtein(a, z) + 1
    decreases |a| + |z|
  {
    if i == |a| {
      assert b == a + [b[i]];
      LastCharacter(a, b[i], z);
    } else {
      assert Last(a) == Last(b);
      assert Insertion(Init(a), Init(b), i);
      if |z| == 0 {
      } else {
        InsertedIsClose(Init(a), Init(b), i, z);
        InsertedIsClose(a, b, i, Init(z));
        InsertedIsClose(Init(a), Init(b), i, Init(z));
      }
    }
  }

  lemma {:induction false} SubstitutedIsClose(a: string, b: string, i: nat, z: string)
    requires Substitution(a, b, i)
    ensures Levenshtein(a, z) <= Levenshtein(b, z) + 1
    decreases |a| + |z|
  {
    if |z| > 0 {
      SubstitutedIsClose(a, b, i, Init(z));
      if i == |a| - 1 {
        assert Init(a) == Init(b);
      } else {
        assert Last(a) == Last(b);
        assert Substitution(Init(a), Init(b), i);
        SubstitutedIsClose(Init(a), Init(b), i, z);
        SubstitutedIsClose(Init(a), Init(b), i, Init(z));
      }
    }
  }

  lemma OneEditIsClose(a: string, b: string, z: string)
    requires OneEdit(a, b)
    ensures Levenshtein(a, z) <= Levenshtein(b, z) + 1
  {
    var i: nat :| EditAt(a, b, i);
    if Insertion(a, b, i) {
      InsertedIsClose(a, b, i, z);
    } else if Insertion(b, a, i) {
      InsertedIsClose(b, a, i, z);
    } else {
      SubstitutedIsClose(a, b, i, z);
    }
  }

  /** No fewer edits get from a to b. */
  lemma {:induction false} NeverFewer(a: string, b: string, edits: nat)
    requires Reaches(a, b, edits)
    ensures Levenshtein(a, b) <= edits
    decreases edits
  {
    hide Levenshtein, OneEdit;
    if edits == 0 {
      NoChange(a);
    } else {
      var c :| OneEdit(a, c) && Reaches(c, b, edits - 1);
      NeverFewer(c, b, edits - 1);
      OneEditIsClose(a, c, b);
    }
  }

  lemma {:induction false} OneMore(a: string, c: string, b: string, edits: nat)
    requires Reaches(a, c, edits) && OneEdit(c, b)
    ensures Reaches(a, b, edits + 1)
    decreases edits
  {
    hide OneEdit;
    if edits == 0 {
      assert Reaches(b, b, 0);
    } else {
      var d :| OneEdit(a, d) && Reaches(d, c, edits - 1);
      OneMore(d, c, b, edits - 1);
    }
  }

  lemma EditBeforeSame(a: string, b: string, x: char)
    requires OneEdit(a, b)
    ensures OneEdit(a + [x], b + [x])
  {
    var i: nat :| EditAt(a, b, i);
    if Substitution(a, b, i) {
      assert Substitution(a + [x], b + [x], i);
    } else if Insertion(a, b, i) {
      assert Insertion(a + [x], b + [x], i);
    } else {
      assert Insertion(b + [x], a + [x], i);
    }
    assert EditAt(a + [x], b + [x], i);
  }

  lemma {:induction false} ReachesBeforeSame(a: string, b: string, x: char, edits: nat)
    requires Reaches(a, b, edits)
    ensures Reaches(a + [x], b + [x], edits)
    decreases edits
  {
    hide OneEdit;
    if edits > 0 {
      var c :| OneEdit(a, c) && Reaches(c, b, edits - 1);
      EditBeforeSame(a, c, x);
      ReachesBeforeSame(c, b, x, edits - 1);
    }
  }

  lemma AppendIsEdit(a: string)
    requires |a| > 0
    ensures OneEdit(Init(a), a) && OneEdit(a, Init(a))
  {
    assert Insertion(Init(a), a, |a| - 1);
    assert EditAt(Init(a), a, |a| - 1) && EditAt(a, Init(a), |a| - 1);
  }

  lemma LastReplaced(a: string, x: char, b: string)
    requires |b| > 0 && a == Init(b) + [x] && x != Last(b)
    ensures OneEdit(a, b)
  {
    assert Substitution(a, b, |b| - 1);
    assert EditAt(a, b, |b| - 1);
  }

  /** And that many edits do get from a to b. */
  /** The last step of a shortest way: dropping, adding or keeping or replacing the last character. */
  lemma LastStep(a: string, b: string)
    ensures |a| == |b| == 0 ==> Levenshtein(a, b) == 0
    ensures |a| > 0 || |b| > 0 ==>
              || (|a| > 0 && Levenshtein(a, b) == Levenshtein(Init(a), b) + 1)
              || (|b| > 0 && Levenshtein(a, b) == Levenshtein(a, Init(b)) + 1)
              || (|a| > 0 && |b| > 0
                  && Levenshtein(a, b) == Levenshtein(Init(a), Init(b)) + Cost(Last(a), Last(b)))
  {
  }

  lemma {:induction false} Enough(a: string, b: string)
    ensures Reaches(a, b, Levenshtein(a, b))
    decreases |a| + |b|
  {
    hide Reaches, OneEdit, Levenshtein;
    LastStep(a, b);
    if |a| == 0 && |b| == 0 {
      ReachesItself(a);
    } else if |a| > 0 && Levenshtein(a, b) == Levenshtein(Init(a), b) + 1 {
      Enough(Init(a), b);
      AppendIsEdit(a);
      OneFirst(a, Init(a), b, Levenshtein(Init(a), b));
    } else if |b| > 0 && Levenshtein(a, b) == Levenshtein(a, Init(b)) + 1 {
      Enough(a, Init(b));
      AppendIsEdit(b);
      OneMore(a, Init(b), b, Levenshtein(a, Init(b)));
    } else {
      Enough(Init(a), Init(b));
      ReplacingLast(a, b, Levenshtein(Init(a), Init(b)));
    }
  }

  lemma ReachesItself(a: string)
    ensures Reaches(a, a, 0)
  {
  }

  lemma OneFirst(a: string, c: string, b: string, edits: nat)
    requires OneEdit(a, c) && Reaches(c, b, edits)
    ensures Reaches(a, b, edits + 1)
  {
  }

  lemma ReplacingLast(a: string, b: string, edits: nat)
    requires |a| > 0 && |b| > 0 && Reaches(Init(a), Init(b), edits)
    ensures Reaches(a, b, edits + Cost(Last(a), Last(b)))
  {
    hide Reaches, OneEdit;
    var x := Last(a);
    ReachesBeforeSame(Init(a), Init(b), x, edits);
    assert a == Init(a) + [x] && b == Init(b) + [Last(b)];
    if x != Last(b) {
      LastReplaced(Init(b) + [x], x, b);
      OneMore(a, Init(b) + [x], b, edits);
    }
  }

  /** The recursion is the least number of single-character edits. */
  lemma LevenshteinIsLeastEdits(a: string, b: string, edits: nat)
    ensures Reaches(a, b, Levenshtein(a, b))
    ensures Reaches(a, b, edits) ==> Levenshtein(a, b) <= edits
  {
    Enough(a, b);
    if Reaches(a, b, edits) {
      NeverFewer(a, b, edits);
    }
  }

  // ---------- rows ----------

  function Cell(a: string, b: string, i: nat, j: nat): nat
    requires i <= |a| && j <= |b|
  {
    Levenshtein(a[..i], b[..j])
  }

  lemma CellRecursion(a: string, b: string, i: nat, j: nat)
    requires 0 < i <= |a| && 0 < j <= |b|
    ensures Cell(a, b, i, j) == Min(Min(Cell(a, b, i - 1, j) + 1, Cell(a, b, i, j - 1) + 1),
                                    Cell(a, b, i - 1, j - 1) + Cost(a[i - 1], b[j - 1]))
  {
    assert Init(a[..i]) == a[..i - 1] && Init(b[..j]) == b[..j - 1];
  }

  lemma CellEdges(a: string, b: string, k: nat)
    ensures k <= |a| ==> Cell(a, b, k, 0) == k
    ensures k <= |b| ==> Cell(a, b, 0, k) == k
  {
  }

  /** Every entry of row j exceeds the limit. */
  predicate RowExceeds(a: string, b: string, j: nat, limit: nat)
    requires j <= |b|
  {
    forall i :: 0 <= i <= |a| ==> Cell(a, b, i, j) > limit
  }

  /** Row minima never decrease. */
  lemma {:induction false} NextRowExceeds(a: string, b: string, j: nat, limit: nat, i: nat)
    requires j < |b| && i <= |a| && RowExceeds(a, b, j, limit)
    ensures Cell(a, b, i, j + 1) > limit
    decreases i
  {
    hide Levenshtein, Cell;
    if i == 0 {
      CellEdges(a, b, j);
      CellEdges(a, b, j + 1);
      assert Cell(a, b, 0, j) > limit;
    } else {
      NextRowExceeds(a, b, j, limit, i - 1);
      CellRecursion(a, b, i, j + 1);
      assert Cell(a, b, i, j) > limit && Cell(a, b, i - 1, j) > limit;
    }
  }

  lemma {:induction false} RowExceedsForGood(a: string, b: string, j: nat, limit: nat)
    requires j <= |b| && RowExceeds(a, b, j, limit)
    ensures Levenshtein(a, b) > limit
    decreases |b| - j
  {
    assert a[..|a|] == a && b[..|b|] == b;
    hide Levenshtein;
    if j == |b| {
      assert Cell(a, b, |a|, |b|) > limit;
    } else {
      var next := j + 1;
      forall i | 0 <= i <= |a| ensures Cell(a, b, i, next) > limit {
        NextRowExceeds(a, b, j, limit, i);
      }
      RowExceedsForGood(a, b, next, limit);
    }
  }

  /** The search gives up: the lengths are too far apart, or some row is. */
  predicate GivesUp(shorter: string, longer: string, limit: nat) {
    || |longer| - |shorter| > limit
    || exists j :: 1 <= j <= |longer| && RowExceeds(shorter, longer, j, limit)
  }

  function Shorter(a: string, b: string): string {
    if |a| > |b| then b else a
  }

  function Longer(a: string, b: string): string {
    if |a| > |b| then a else b
  }

  /** Giving up is justified. */
  lemma GivesUpSoundly(lhs: string, rhs: string, limit: nat)
    requires GivesUp(Shorter(lhs, rhs), Longer(lhs, rhs), limit)
    ensures Levenshtein(lhs, rhs) > limit
  {
    hide Levenshtein;
    Symmetric(lhs, rhs);
    var shorter, longer := Shorter(lhs, rhs), Longer(lhs, rhs);
    LengthDifference(shorter, longer);
    if |longer| - |shorter| <= limit {
      var j :| 1 <= j <= |longer| && RowExceeds(shorter, longer, j, limit);
      RowExceedsForGood(shorter, longer, j, limit);
    }
  }

  /**
   * The bounded distance. A result within the limit is the true distance, and the true distance
   * within the limit is the result. Beyond the limit the result is beyond it too: the limit plus
   * one when the search gives up, and otherwise the true distance, so it is the limit plus one
   * exactly when the search gives up or that is the true distance.
   */
  method BoundedDistance(lhs: string, rhs: string, limit: nat) returns (distance: nat)
    ensures distance <= limit <==> Levenshtein(lhs, rhs) <= limit
    ensures distance <= limit ==> distance == Levenshtein(lhs, rhs)
    ensures distance == if GivesUp(Shorter(lhs, rhs), Longer(lhs, rhs), limit) then limit + 1
                        else Levenshtein(lhs, rhs)
    ensures Levenshtein(lhs, rhs) > limit ==>
              (distance == limit + 1 <==>
                 GivesUp(Shorter(lhs, rhs), Longer(lhs, rhs), limit) || Levenshtein(lhs, rhs) == limit + 1)
  {
    hide Levenshtein, Cell, GivesUp, RowExceeds;
    var a, b := lhs, rhs;
    if |a| > |b| {
      a, b := b, a;
    }
    Symmetric(lhs, rhs);
    if |b| - |a| > limit {
      TooFarApart(a, b, limit);
      GivesUpSoundly(lhs, rhs, limit);
      return limit + 1;
    }
    var previous, current := new nat[|a| + 1], new nat[|a| + 1];
    for i := 0 to |a| + 1
      modifies previous
      invariant forall k :: 0 <= k < i ==> previous[k] == Cell(a, b, k, 0)
    {
      CellEdges(a, b, i);
      previous[i] := i;
    }
    var rows := {previous, current};
    for j := 1 to |b| + 1
      modifies rows
      invariant previous != current && previous.Length == current.Length == |a| + 1
      invariant previous in rows && current in rows
      invariant forall i :: 0 <= i <= |a| ==> previous[i] == Cell(a, b, i, j - 1)
      invariant forall k :: 1 <= k < j ==> !RowExceeds(a, b, k, limit)
    {
      var best := FillRow(a, b, j, previous, current);
      RowIsBest(a, b, j, limit, current[..], best);
      if best > limit {
        RowTooFar(a, b, j, limit);
        GivesUpSoundly(lhs, rhs, limit);
        return limit + 1;
      }
      previous, current := current, previous;
    }
    WholeCell(a, b);
    NeverGaveUp(a, b, limit);
    distance := previous[|a|];
  }

  /** One row of the table from the one above, and its least entry. */
  method FillRow(a: string, b: string, j: nat, previous: array<nat>, current: array<nat>) returns (best: nat)
    requires 1 <= j <= |b| && previous != current && previous.Length == current.Length == |a| + 1
    requires forall i :: 0 <= i <= |a| ==> previous[i] == Cell(a, b, i, j - 1)
    modifies current
    ensures forall i :: 0 <= i <= |a| ==> current[i] == Cell(a, b, i, j) && best <= current[i]
    ensures exists i :: 0 <= i <= |a| && current[i] == best
  {
    hide Levenshtein, Cell;
    CellEdges(a, b, j);
    current[0] := j;
    best := current[0];
    for i := 1 to |a| + 1
      invariant forall k :: 0 <= k < i ==> current[k] == Cell(a, b, k, j) && best <= current[k]
      invariant exists k :: 0 <= k < i && current[k] == best
      invariant previous[..] == old(previous[..])
    {
      var substitution := previous[i - 1] + Cost(a[i - 1], b[j - 1]);
      CellRecursion(a, b, i, j);
      current[i] := Min(Min(current[i - 1] + 1, previous[i] + 1), substitution);
      best := Min(best, current[i]);
    }
  }

  lemma RowIsBest(a: string, b: string, j: nat, limit: nat, row: seq<nat>, best: nat)
    requires j <= |b| && |row| == |a| + 1
    requires forall i :: 0 <= i <= |a| ==> row[i] == Cell(a, b, i, j) && best <= row[i]
    requires exists i :: 0 <= i <= |a| && row[i] == best
    ensures best > limit <==> RowExceeds(a, b, j, limit)
  {
    hide Levenshtein, Cell;
    var i :| 0 <= i <= |a| && row[i] == best;
    assert Cell(a, b, i, j) == best;
  }

  lemma TooFarApart(a: string, b: string, limit: nat)
    requires |b| - |a| > limit
    ensures GivesUp(a, b, limit)
  {
  }

  lemma RowTooFar(a: string, b: string, j: nat, limit: nat)
    requires 1 <= j <= |b| && RowExceeds(a, b, j, limit)
    ensures GivesUp(a, b, limit)
  {
  }

  lemma NeverGaveUp(a: string, b: string, limit: nat)
    requires |b| - |a| <= limit && forall k :: 1 <= k <= |b| ==> !RowExceeds(a, b, k, limit)
    ensures !GivesUp(a, b, limit)
  {
  }

  lemma WholeCell(a: string, b: string)
    ensures Cell(a, b, |a|, |b|) == Levenshtein(a, b)
  {
    assert a[..|a|] == a && b[..|b|] == b;
  }

  // ---------- beyond the limit ----------

  predicate IsRow(a: string, b: string, j: nat, row: seq<nat>) {
    j <= |b| && |row| == |a| + 1 && forall i :: 0 <= i <= |a| ==> row[i] == Cell(a, b, i, j)
  }

  lemma {:induction false} NextRow(a: string, b: string, j: nat, above: seq<nat>, row: seq<nat>, i: nat)
    requires 0 < j <= |b| && i <= |a| && IsRow(a, b, j - 1, above) && |row| == |a| + 1 && row[0] == j
    requires forall k :: 1 <= k <= |a| ==>
      row[k] == Min(Min(row[k - 1] + 1, above[k] + 1), above[k - 1] + Cost(a[k - 1], b[j - 1]))
    ensures row[i] == Cell(a, b, i, j)
    decreases i
  {
    hide Cell;
    CellEdges(a, b, j);
    if i > 0 {
      NextRow(a, b, j, above, row, i - 1);
      CellRecursion(a, b, i, j);
    }
  }

  lemma RowFromAbove(a: string, b: string, j: nat, above: seq<nat>, row: seq<nat>)
    requires 0 < j <= |b| && IsRow(a, b, j - 1, above) && |row| == |a| + 1 && row[0] == j
    requires forall k :: 1 <= k <= |a| ==>
      row[k] == Min(Min(row[k - 1] + 1, above[k] + 1), above[k - 1] + Cost(a[k - 1], b[j - 1]))
    ensures IsRow(a, b, j, row)
  {
    hide Cell;
    forall i | 0 <= i <= |a| ensures row[i] == Cell(a, b, i, j) {
      NextRow(a, b, j, above, row, i);
    }
  }

  /** A distance over the limit is not always reported as the limit plus one. */
  lemma OverLimitIsNotAlwaysLimitPlusOne()
    ensures !GivesUp("cdef", "abcd", 2) && Levenshtein("cdef", "abcd") == 4
  {
    hide Cell, Levenshtein, RowExceeds;
    var a, b := "cdef", "abcd";
    FirstRow(a, b);
    RowFromAbove(a, b, 1, [0, 1, 2, 3, 4], [1, 1, 2, 3, 4]);
    RowFromAbove(a, b, 2, [1, 1, 2, 3, 4], [2, 2, 2, 3, 4]);
    RowFromAbove(a, b, 3, [2, 2, 2, 3, 4], [3, 2, 3, 3, 4]);
    RowFromAbove(a, b, 4, [3, 2, 3, 3, 4], [4, 3, 2, 3, 4]);
    WholeCell(a, b);
    RowWithin(a, b, 1, [1, 1, 2, 3, 4], 2, 0);
    RowWithin(a, b, 2, [2, 2, 2, 3, 4], 2, 0);
    RowWithin(a, b, 3, [3, 2, 3, 3, 4], 2, 1);
    RowWithin(a, b, 4, [4, 3, 2, 3, 4], 2, 2);
  }

  lemma FirstRow(a: string, b: string)
    requires |a| == 4
    ensures IsRow(a, b, 0, [0, 1, 2, 3, 4])
  {
    CellEdges(a, b, 0);
    CellEdges(a, b, 1);
    CellEdges(a, b, 2);
    CellEdges(a, b, 3);
    CellEdges(a, b, 4);
    hide Cell;
  }

  lemma RowWithin(a: string, b: string, j: nat, row: seq<nat>, limit: nat, i: nat)
    requires IsRow(a, b, j, row) && i <= |a| && row[i] <= limit
    ensures !RowExceeds(a, b, j, limit)
  {
    hide Cell;
    assert Cell(a, b, i, j) <= limit;
  }

  // ---------- suggestions ----------

  /** The distance a suggestion must stay below. */
  const CLOSE: nat := 3

  /** Entry i is the first of the nearest names, and near enough. */
  predicate IsNearest(name: string, names: seq<string>, i: nat) {
    && i < |names| && Levenshtein(name, names[i]) < 3
    && (forall k :: 0 <= k < i ==> Levenshtein(name, names[i]) < Levenshtein(name, names[k]))
    && (forall k :: i <= k < |names| ==> Levenshtein(name, names[i]) <= Levenshtein(name, names[k]))
  }

  /** The suggestion for a mistyped name: the first nearest known name, if any is near enough. */
  method Suggest(name: string, names: seq<string>) returns (best: string)
    ensures best != "" ==> exists i :: 0 <= i < |names| && IsNearest(name, names, i) && best == names[i]
    ensures best == "" ==> (forall k :: 0 <= k < |names| ==> Levenshtein(name, names[k]) >= 3)
                           || exists i :: 0 <= i < |names| && IsNearest(name, names, i) && names[i] == ""
  {
    hide Levenshtein;
    best := "";
    var bestDistance := CLOSE;
    ghost var nearest := -1;
    for i := 0 to |names|
      invariant -1 <= nearest < i
      invariant nearest == -1 ==>
        && bestDistance == CLOSE && best == ""
        && forall k :: 0 <= k < i ==> Levenshtein(name, names[k]) >= CLOSE
      invariant nearest >= 0 ==>
        && bestDistance == Levenshtein(name, names[nearest]) && best == names[nearest]
        && IsNearest(name, names[..i], nearest)
    {
      var distance := BoundedDistance(name, names[i], bestDistance);
      assert names[..i + 1] == names[..i] + [names[i]];
      if distance < bestDistance {
        bestDistance, best, nearest := distance, names[i], i;
      }
    }
    assert names[..|names|] == names;
  }
}
