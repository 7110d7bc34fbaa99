/** Python's stable sorted() by a key that is a pair of strings. */
module Sorting {
  import opened Dates
  import opened Sequences

  type Pair = (string, string)

  predicate PairLess(a: Pair, b: Pair) {
    Less(a.0, b.0) || (a.0 == b.0 && Less(a.1, b.1))
  }

  lemma PairTotal()
    ensures forall a, b :: PairLess(a, b) || a == b || PairLess(b, a)
    ensures forall a, b :: PairLess(a, b) ==> !PairLess(b, a) && a != b
    ensures forall a, b, c :: PairLess(a, b) && PairLess(b, c) ==> PairLess(a, c)
  {
    LessTotal();
  }

  function SortBy<T(!new)>(s: seq<T>, key: T -> Pair): (r: seq<T>)
    ensures multiset(r) == multiset(s)
    ensures forall x :: x in r <==> x in s
  {
    if s == [] then []
    else
      SplitLast(s);
      InsertBy(SortBy(s[..|s| - 1], key), s[|s| - 1], key)
  }

  function InsertBy<T(!new)>(s: seq<T>, x: T, key: T -> Pair): (r: seq<T>)
    ensures multiset(r) == multiset(s) + multiset{x}
    ensures forall y :: y in r <==> y in s || y == x
  {
    if s == [] then [x]
    else
      var last := s[|s| - 1];
      SplitLast(s);
      if PairLess(key(x), key(last)) then InsertBy(s[..|s| - 1], x, key) + [last] else s + [x]
  }

  ghost predicate SortedBy<T(!new)>(s: seq<T>, key: T -> Pair) {
    forall i, j :: 0 <= i < j < |s| ==> !PairLess(key(s[j]), key(s[i]))
  }

  lemma {:induction false} InsertKeepsSorted<T(!new)>(s: seq<T>, x: T, key: T -> Pair)
    requires SortedBy(s, key)
    ensures SortedBy(InsertBy(s, x, key), key)
  {
    PairTotal();
    if s != [] && PairLess(key(x), key(s[|s| - 1])) {
      var front := s[..|s| - 1];
      InsertKeepsSorted(front, x, key);
      var r := InsertBy(front, x, key);
      forall i | 0 <= i < |r| ensures !PairLess(key(s[|s| - 1]), key(r[i])) {
        assert r[i] in r;
      }
    }
  }

  lemma {:induction false} SortBySorts<T(!new)>(s: seq<T>, key: T -> Pair)
    ensures SortedBy(SortBy(s, key), key)
  {
    if s != [] {
      SortBySorts(s[..|s| - 1], key);
      InsertKeepsSorted(SortBy(s[..|s| - 1], key), s[|s| - 1], key);
    }
  }

  function WithKey<T(!new)>(s: seq<T>, key: T -> Pair, k: Pair): seq<T> {
    if s == [] then []
    else
      var rest := WithKey(s[..|s| - 1], key, k);
      if key(s[|s| - 1]) == k then rest + [s[|s| - 1]] else rest
  }

  /** The sort is stable: elements with one key stay in the order they came in. */
  lemma {:induction false} SortByIsStable<T(!new)>(s: seq<T>, key: T -> Pair, k: Pair)
    ensures WithKey(SortBy(s, key), key, k) == WithKey(s, key, k)
  {
    if s != [] {
      SortByIsStable(s[..|s| - 1], key, k);
      SortBySorts(s[..|s| - 1], key);
      InsertGoesLast(SortBy(s[..|s| - 1], key), s[|s| - 1], key, k);
    }
  }

  lemma {:induction false} InsertGoesLast<T(!new)>(s: seq<T>, x: T, key: T -> Pair, k: Pair)
    requires SortedBy(s, key)
    ensures WithKey(InsertBy(s, x, key), key, k) == WithKey(s, key, k) + if key(x) == k then [x] else []
  {
    PairTotal();
    if s != [] && PairLess(key(x), key(s[|s| - 1])) {
      var front, last := s[..|s| - 1], s[|s| - 1];
      InsertGoesLast(front, x, key, k);
      assert (InsertBy(front, x, key) + [last])[..|InsertBy(front, x, key)|] == InsertBy(front, x, key);
    }
  }

  /** Two sorted arrangements of the same elements are equal once keys tell the elements apart. */
  lemma {:induction false} SortedUnique<T(!new)>(a: seq<T>, b: seq<T>, key: T -> Pair)
    requires multiset(a) == multiset(b) && SortedBy(a, key) && SortedBy(b, key)
    requires forall x, y :: x in a && y in a && key(x) == key(y) ==> x == y
    ensures a == b
  {
    SameMembers(a, b);
    if a != [] {
      SameLast(a, b, key);
      SameButLast(a, b);
      var front, front' := a[..|a| - 1], b[..|b| - 1];
      assert forall x :: x in front ==> x in a;
      SortedUnique(front, front', key);
      assert a == front + [a[|a| - 1]] && b == front' + [b[|b| - 1]];
    }
  }

  lemma SameLast<T(!new)>(a: seq<T>, b: seq<T>, key: T -> Pair)
    requires multiset(a) == multiset(b) && SortedBy(a, key) && SortedBy(b, key) && a != [] && b != []
    requires forall x, y :: x in a && y in a && key(x) == key(y) ==> x == y
    ensures a[|a| - 1] == b[|b| - 1]
  {
    SameMembers(a, b);
    PairTotal();
    assert a[|a| - 1] in b && b[|b| - 1] in a;
  }
}
