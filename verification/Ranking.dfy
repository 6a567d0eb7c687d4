/** Candidates ranked by score, best first, equal scores by smaller id; what the k best are. */
module Ranking {
  import opened Sequences
  import Sorting

  datatype Candidate = Candidate(score: real, id: nat)

  /** A total order: no two different candidates are each at least the other. */
  predicate AtLeast(a: Candidate, b: Candidate) {
    a.score > b.score || (a.score == b.score && a.id <= b.id)
  }

  predicate Ranked(s: seq<Candidate>) {
    forall i, j :: 0 <= i < j < |s| ==> AtLeast(s[i], s[j])
  }

  /** Every candidate of `all` left out of `chosen` is no better than every chosen one. */
  predicate Dominates(chosen: multiset<Candidate>, all: multiset<Candidate>) {
    forall b, c :: b in chosen && c in all - chosen ==> AtLeast(b, c)
  }

  /** `best` lists, in rank order, the k best of `all`, repetitions counted. */
  predicate IsTopK(best: seq<Candidate>, all: multiset<Candidate>, k: nat) {
    && Ranked(best)
    && |best| == Min(k, |all|)
    && multiset(best) <= all
    && Dominates(multiset(best), all)
  }

  lemma SubmultisetSize(a: multiset<Candidate>, b: multiset<Candidate>)
    requires a <= b
    ensures |a| <= |b|
    ensures |a| == |b| ==> a == b
  {
    assert b == a + (b - a);
  }

  /** Of two different multisets of one size, each holds more of something than the other. */
  lemma SomethingMore(a: multiset<Candidate>, b: multiset<Candidate>)
    requires |a| >= |b| && a != b
    ensures exists x :: a[x] > b[x]
  {
    if forall x :: a[x] <= b[x] {
      SubmultisetSize(a, b);
    }
  }

  /** Two ranked lists of the same candidates are the same list. */
  lemma RankedUnique(a: seq<Candidate>, b: seq<Candidate>)
    requires Ranked(a) && Ranked(b) && multiset(a) == multiset(b)
    ensures a == b
  {
    RankedIsOrdered(a);
    RankedIsOrdered(b);
    Sorting.OrderIsUnique(AtLeast, a, b);
  }

  lemma RankedIsOrdered(s: seq<Candidate>)
    ensures Ranked(s) <==> Sorting.Ordered(AtLeast, s)
  {
    hide AtLeast;
  }

  /** The k best are one list, however they were found. */
  lemma TopKUnique(a: seq<Candidate>, b: seq<Candidate>, all: multiset<Candidate>, k: nat)
    requires IsTopK(a, all, k) && IsTopK(b, all, k)
    ensures a == b
  {
    if multiset(a) != multiset(b) {
      SomethingMore(multiset(a), multiset(b));
      SomethingMore(multiset(b), multiset(a));
      var x :| multiset(a)[x] > multiset(b)[x];
      var y :| multiset(b)[y] > multiset(a)[y];
      LeftOut(b, all, k, y, x);
      LeftOut(a, all, k, x, y);
    }
    RankedUnique(a, b);
  }

  lemma LeftOut(best: seq<Candidate>, all: multiset<Candidate>, k: nat, b: Candidate, c: Candidate)
    requires IsTopK(best, all, k) && b in multiset(best) && multiset(best)[c] < all[c]
    ensures AtLeast(b, c)
  {
    assert c in all - multiset(best);
  }

  /** The k best of the k best of two parts are the k best of the whole. */
  lemma TopKOfMerged(best: seq<Candidate>, a: seq<Candidate>, b: seq<Candidate>,
                     left: multiset<Candidate>, right: multiset<Candidate>, k: nat)
    requires IsTopK(a, left, k) && IsTopK(b, right, k)
    requires IsTopK(best, multiset(a) + multiset(b), k)
    ensures IsTopK(best, left + right, k)
  {
    var kept := multiset(best);
    forall x, c | x in kept && c in left + right - kept ensures AtLeast(x, c) {
      if left[c] > multiset(a)[c] {
        Displaced(best, a, b, left, k, c, x);
      } else if right[c] > multiset(b)[c] {
        assert multiset(b) + multiset(a) == multiset(a) + multiset(b);
        Displaced(best, b, a, right, k, c, x);
      } else {
        LeftOut(best, multiset(a) + multiset(b), k, x, c);
      }
    }
  }

  /** A candidate its own part already displaced is no better than anything selected. */
  lemma Displaced(best: seq<Candidate>, a: seq<Candidate>, b: seq<Candidate>,
                  left: multiset<Candidate>, k: nat, c: Candidate, x: Candidate)
    requires IsTopK(a, left, k) && IsTopK(best, multiset(a) + multiset(b), k)
    requires left[c] > multiset(a)[c] && x in multiset(best)
    ensures AtLeast(x, c)
  {
    if x in multiset(a) {
      LeftOut(a, left, k, x, c);
    } else {
      var y := SomeDropped(best, a, left, k, c, x);
      LeftOut(best, multiset(a) + multiset(b), k, x, y);
      LeftOut(a, left, k, y, c);
    }
  }

  lemma SomeDropped(best: seq<Candidate>, a: seq<Candidate>, left: multiset<Candidate>, k: nat, c: Candidate,
                    x: Candidate)
    returns (y: Candidate)
    requires |best| <= k && |a| == Min(k, |left|) && multiset(a) <= left
    requires left[c] > multiset(a)[c] && x in multiset(best) && x !in multiset(a)
    ensures multiset(a)[y] > multiset(best)[y]
  {
    if forall z :: multiset(a)[z] <= multiset(best)[z] {
      SubmultisetSize(multiset(a) + multiset{c}, left);
      SubmultisetSize(multiset(a) + multiset{x}, multiset(best));
    }
    y :| multiset(a)[y] > multiset(best)[y];
  }

  // ---------- sorting everything ----------

  /** The candidates from the best down. */
  function Sorted(s: seq<Candidate>): seq<Candidate> {
    Sorting.Sorted(AtLeast, s)
  }

  lemma SortedRanks(s: seq<Candidate>)
    ensures multiset(Sorted(s)) == multiset(s) && Ranked(Sorted(s)) && |Sorted(s)| == |s|
  {
    Sorting.SortedOrders(AtLeast, s);
    RankedIsOrdered(Sorted(s));
  }

  /** The first k of everything sorted, or everything when there are fewer. */
  function Leading(s: seq<Candidate>, k: nat): (r: seq<Candidate>) {
    SortedRanks(s);
    Sorted(s)[..Min(k, |s|)]
  }

  /** Sorting everything and taking the first k gives the k best, and nothing else is the k best. */
  lemma LeadingIsTopK(s: seq<Candidate>, k: nat)
    ensures IsTopK(Leading(s, k), multiset(s), k)
  {
    hide Sorted, AtLeast;
    SortedRanks(s);
    PrefixDominates(Sorted(s), Min(k, |s|));
  }

  lemma PrefixDominates(all: seq<Candidate>, n: nat)
    requires Ranked(all) && n <= |all|
    ensures Ranked(all[..n]) && multiset(all[..n]) <= multiset(all)
    ensures Dominates(multiset(all[..n]), multiset(all))
  {
    hide AtLeast;
    var best, rest := all[..n], all[n..];
    assert all == best + rest;
    forall b, c | b in multiset(best) && c in multiset(all) - multiset(best) ensures AtLeast(b, c) {
      assert c in multiset(rest);
      var i :| 0 <= i < n && best[i] == b;
      var j :| 0 <= j < |rest| && rest[j] == c;
      assert all[i] == b && all[n + j] == c;
    }
  }
}
