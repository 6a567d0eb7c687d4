/** Facts about sequences and numbers that several modules use. */
module Sequences {

  function Min(a: nat, b: nat): nat {
    if a < b then a else b
  }

  lemma Associative<T>(a: seq<T>, b: seq<T>, c: seq<T>)
    ensures a + (b + c) == a + b + c
  {
  }

  lemma SliceOfSlice<T>(b: seq<T>, from: nat, to: nat, i: nat, j: nat)
    requires from <= to <= |b| && i <= j <= to - from
    ensures b[from..to][i..j] == b[from + i..from + j]
  {
    var part := b[from..to];
    forall k | 0 <= k < j - i ensures part[i..j][k] == b[from + i..from + j][k] {
      assert part[i + k] == b[from + i + k];
    }
  }

  lemma SliceOfRest<T>(s: seq<T>, from: nat, i: nat, j: nat)
    requires i <= j && from + j <= |s|
    ensures s[from..][i..j] == s[from + i..from + j]
  {
  }

  lemma SameSize<T>(a: seq<T>, b: seq<T>)
    requires multiset(a) == multiset(b)
    ensures |a| == |b|
  {
    assert |multiset(a)| == |a| && |multiset(b)| == |b|;
  }

  lemma Twice<T>(s: seq<T>, i: nat, j: nat)
    requires i < j < |s| && s[i] == s[j]
    ensures multiset(s)[s[i]] >= 2
  {
    assert s == s[..j] + [s[j]] + s[j + 1..];
    assert s[..j][i] == s[i];
  }

  predicate Different<T(==)>(s: seq<T>) {
    forall i, j :: 0 <= i < j < |s| ==> s[i] != s[j]
  }

  lemma {:induction false} OnceEach<T>(s: seq<T>)
    requires Different(s)
    ensures forall x :: x in s ==> multiset(s)[x] == 1
    decreases |s|
  {
    hide Different;
    if |s| > 0 {
      DifferentTail(s);
      OnceEach(s[1..]);
    }
  }

  lemma DifferentTail<T>(s: seq<T>)
    requires Different(s) && |s| > 0
    ensures Different(s[1..]) && s[0] !in s[1..]
    ensures multiset(s) == multiset{s[0]} + multiset(s[1..])
  {
    assert s == [s[0]] + s[1..];
  }

  /** The same elements in another order are still different. */
  lemma StillDifferent<T>(a: seq<T>, b: seq<T>)
    requires Different(a) && multiset(a) == multiset(b)
    ensures Different(b)
  {
    OnceEach(a);
    forall i, j | 0 <= i < j < |b| ensures b[i] != b[j] {
      assert b[i] in multiset(b);
      if b[i] == b[j] {
        Twice(b, i, j);
        assert false;
      }
    }
  }
}
