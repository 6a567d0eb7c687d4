/** Sorting by insertion, for any order that is total and transitive, and when the sorted list is the only one. */
module Sorting {
  import opened Sequences

  /** Any two are comparable and comparisons chain; different elements may still count as equal. */
  ghost predicate IsOrder<T(!new)>(le: (T, T) -> bool) {
    && (forall x, y :: le(x, y) || le(y, x))
    && forall x, y, z :: le(x, y) && le(y, z) ==> le(x, z)
  }

  predicate Ordered<T>(le: (T, T) -> bool, s: seq<T>) {
    forall i, j :: 0 <= i < j < |s| ==> le(s[i], s[j])
  }

  /** No two different elements of `all` count as equal. */
  ghost predicate Separates<T>(le: (T, T) -> bool, all: multiset<T>) {
    forall x, y :: x in all && y in all && le(x, y) && le(y, x) ==> x == y
  }

  function Insert<T>(le: (T, T) -> bool, x: T, s: seq<T>): seq<T>
    decreases |s|
  {
    if |s| == 0 then [x]
    else if le(x, s[0]) then [x] + s
    else [s[0]] + Insert(le, x, s[1..])
  }

  function Sorted<T>(le: (T, T) -> bool, s: seq<T>): seq<T>
    decreases |s|
  {
    if |s| == 0 then [] else Insert(le, s[0], Sorted(le, s[1..]))
  }

  lemma {:induction false} InsertKeeps<T>(le: (T, T) -> bool, x: T, s: seq<T>)
    ensures multiset(Insert(le, x, s)) == multiset(s) + multiset{x}
    decreases |s|
  {
    if |s| > 0 {
      assert s == [s[0]] + s[1..];
      InsertKeeps(le, x, s[1..]);
    }
  }

  lemma HeadFirst<T>(le: (T, T) -> bool, x: T, s: seq<T>)
    requires Ordered(le, s) && forall y :: y in multiset(s) ==> le(x, y)
    ensures Ordered(le, [x] + s)
  {
    forall j | 0 <= j < |s| ensures le(x, s[j]) {
      assert s[j] in multiset(s);
    }
  }

  lemma HeadPrecedes<T>(le: (T, T) -> bool, s: seq<T>, x: T)
    requires Ordered(le, s) && x in multiset(s)
    ensures |s| > 0 && (x == s[0] || le(s[0], x))
  {
    var i :| 0 <= i < |s| && s[i] == x;
  }

  lemma Tail<T>(le: (T, T) -> bool, s: seq<T>)
    requires |s| > 0 && Ordered(le, s)
    ensures Ordered(le, s[1..])
    ensures s == [s[0]] + s[1..] && multiset(s) == multiset{s[0]} + multiset(s[1..])
  {
    assert s == [s[0]] + s[1..];
  }

  lemma {:induction false} InsertOrders<T(!new)>(le: (T, T) -> bool, x: T, s: seq<T>)
    requires IsOrder(le) && Ordered(le, s)
    ensures Ordered(le, Insert(le, x, s))
    decreases |s|
  {
    hide Ordered;
    if |s| == 0 {
      FewAreOrdered(le, [x]);
    } else {
      Tail(le, s);
      forall y | y in multiset(s[1..]) ensures le(s[0], y) {
        HeadPrecedes(le, s, y);
      }
      if le(x, s[0]) {
        HeadFirst(le, x, s);
      } else {
        InsertOrders(le, x, s[1..]);
        InsertKeeps(le, x, s[1..]);
        HeadFirst(le, s[0], Insert(le, x, s[1..]));
      }
    }
  }

  lemma FewAreOrdered<T>(le: (T, T) -> bool, s: seq<T>)
    requires |s| <= 1
    ensures Ordered(le, s)
  {
  }

  lemma {:induction false} SortedOrders<T(!new)>(le: (T, T) -> bool, s: seq<T>)
    requires IsOrder(le)
    ensures Ordered(le, Sorted(le, s)) && multiset(Sorted(le, s)) == multiset(s) && |Sorted(le, s)| == |s|
    decreases |s|
  {
    hide IsOrder, Ordered, Insert;
    if |s| > 0 {
      SortedOrders(le, s[1..]);
      InsertOrders(le, s[0], Sorted(le, s[1..]));
      InsertKeeps(le, s[0], Sorted(le, s[1..]));
      assert s == [s[0]] + s[1..];
      SameSize(Sorted(le, s), s);
    } else {
      FewAreOrdered(le, s);
    }
  }

  /** Where the order separates the elements, there is one way to order them. */
  lemma {:induction false} OrderIsUnique<T(!new)>(le: (T, T) -> bool, a: seq<T>, b: seq<T>)
    requires Ordered(le, a) && Ordered(le, b) && multiset(a) == multiset(b) && Separates(le, multiset(a))
    ensures a == b
    decreases |a|
  {
    hide Ordered, Separates;
    SameSize(a, b);
    if |a| > 0 {
      SameHead(le, a, b);
      Tail(le, a);
      Tail(le, b);
      SeparatesPart(le, multiset(a[1..]), multiset(a));
      OrderIsUnique(le, a[1..], b[1..]);
    }
  }

  lemma SeparatesPart<T>(le: (T, T) -> bool, part: multiset<T>, all: multiset<T>)
    requires part <= all && Separates(le, all)
    ensures Separates(le, part)
  {
  }

  lemma SameHead<T>(le: (T, T) -> bool, a: seq<T>, b: seq<T>)
    requires Ordered(le, a) && Ordered(le, b) && multiset(a) == multiset(b) && Separates(le, multiset(a))
    requires |a| > 0 && |b| > 0
    ensures a[0] == b[0]
  {
    hide Ordered;
    assert a[0] in multiset(a) && b[0] in multiset(b);
    HeadPrecedes(le, a, b[0]);
    HeadPrecedes(le, b, a[0]);
  }
}
