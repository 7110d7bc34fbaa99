/** Facts about sequences and their multisets that several modules use. */
module Sequences {
  lemma SplitLast<T>(s: seq<T>)
    requires s != []
    ensures s == s[..|s| - 1] + [s[|s| - 1]]
    ensures multiset(s) == multiset(s[..|s| - 1]) + multiset{s[|s| - 1]}
  {
    assert s == s[..|s| - 1] + [s[|s| - 1]];
  }

  lemma RemoveAt<T>(s: seq<T>, i: nat)
    requires i < |s|
    ensures multiset(s) == multiset(s[..i] + s[i + 1..]) + multiset{s[i]}
  {
    assert s == s[..i] + [s[i]] + s[i + 1..];
  }

  lemma SameMembers<T>(a: seq<T>, b: seq<T>)
    requires multiset(a) == multiset(b)
    ensures |a| == |b|
    ensures forall x :: x in a <==> x in b
  {
    assert |a| == |multiset(a)| && |b| == |multiset(b)|;
    forall x ensures x in a <==> x in b {
      assert x in a <==> x in multiset(a);
      assert x in b <==> x in multiset(b);
    }
  }

  /** No two elements have one key. */
  ghost predicate DistinctBy<T, K>(s: seq<T>, key: T -> K) {
    forall i, j :: 0 <= i < j < |s| ==> key(s[i]) != key(s[j])
  }

  lemma {:induction false} OnceEach<T, K>(s: seq<T>, key: T -> K, x: T)
    requires DistinctBy(s, key)
    ensures multiset(s)[x] <= 1
  {
    if s != [] {
      SplitLast(s);
      OnceEach(s[..|s| - 1], key, x);
    }
  }

  lemma PermutedDistinct<T, K>(a: seq<T>, b: seq<T>, key: T -> K)
    requires DistinctBy(a, key) && multiset(a) == multiset(b)
    ensures DistinctBy(b, key)
  {
    SameMembers(a, b);
    forall i, j | 0 <= i < j < |b| ensures key(b[i]) != key(b[j]) {
      assert b[i] in a && b[j] in a;
      OnceEach(a, key, b[j]);
      RemoveAt(b, j);
      assert (b[..j] + b[j + 1..])[i] == b[i];
    }
  }

  function Map<S, T>(s: seq<S>, f: S -> T): (r: seq<T>)
    ensures |r| == |s| && forall i :: 0 <= i < |s| ==> r[i] == f(s[i])
  {
    seq(|s|, i requires 0 <= i < |s| => f(s[i]))
  }

  /** Some element of b is the last of a, and the rest of b are the rest of a. */
  lemma LastMatches<T>(a: seq<T>, b: seq<T>) returns (i: nat)
    requires multiset(a) == multiset(b) && a != []
    ensures i < |b| && b[i] == a[|a| - 1]
    ensures multiset(a[..|a| - 1]) == multiset(b[..i] + b[i + 1..])
  {
    var x := a[|a| - 1];
    assert x in a;
    SameMembers(a, b);
    i :| 0 <= i < |b| && b[i] == x;
    SplitLast(a);
    RemoveAt(b, i);
    var front, rest := multiset(a[..|a| - 1]), multiset(b[..i] + b[i + 1..]);
    assert front == (front + multiset{x}) - multiset{x};
    assert rest == (rest + multiset{x}) - multiset{x};
  }

  lemma SameButLast<T>(a: seq<T>, b: seq<T>)
    requires multiset(a) == multiset(b) && a != [] && b != [] && a[|a| - 1] == b[|b| - 1]
    ensures multiset(a[..|a| - 1]) == multiset(b[..|b| - 1])
  {
    SplitLast(a);
    SplitLast(b);
    var x := a[|a| - 1];
    var front, rest := multiset(a[..|a| - 1]), multiset(b[..|b| - 1]);
    assert front == (front + multiset{x}) - multiset{x};
    assert rest == (rest + multiset{x}) - multiset{x};
  }

  lemma MapRemoveAt<S, T>(s: seq<S>, i: nat, f: S -> T)
    requires i < |s|
    ensures multiset(Map(s, f)) == multiset(Map(s[..i] + s[i + 1..], f)) + multiset{f(s[i])}
  {
    RemoveAt(Map(s, f), i);
    assert Map(s[..i] + s[i + 1..], f) == Map(s, f)[..i] + Map(s, f)[i + 1..];
  }

  lemma {:induction false} MapPermutes<S, T>(a: seq<S>, b: seq<S>, f: S -> T)
    requires multiset(a) == multiset(b)
    ensures multiset(Map(a, f)) == multiset(Map(b, f))
  {
    SameMembers(a, b);
    if a != [] {
      var i := LastMatches(a, b);
      var front := a[..|a| - 1];
      MapPermutes(front, b[..i] + b[i + 1..], f);
      MapRemoveAt(a, |a| - 1, f);
      assert front + a[|a|..] == front;
      MapRemoveAt(b, i, f);
    } else {
      assert b == [];
    }
  }

  function FlatMap<S, T>(s: seq<S>, f: S -> seq<T>): seq<T> {
    if s == [] then [] else FlatMap(s[..|s| - 1], f) + f(s[|s| - 1])
  }

  lemma {:induction false} FlatMapSum<S, T>(a: seq<S>, b: seq<S>, f: S -> seq<T>)
    ensures FlatMap(a + b, f) == FlatMap(a, f) + FlatMap(b, f)
  {
    if b == [] {
      assert a + b == a;
    } else {
      assert (a + b)[..|a + b| - 1] == a + b[..|b| - 1];
      FlatMapSum(a, b[..|b| - 1], f);
    }
  }

  lemma FlatMapAround<S, T>(u: seq<S>, x: S, v: seq<S>, f: S -> seq<T>)
    ensures multiset(FlatMap(u + [x] + v, f)) == multiset(FlatMap(u + v, f)) + multiset(f(x))
  {
    FlatMapSum(u, v, f);
    FlatMapSum(u + [x], v, f);
    assert (u + [x])[..|u|] == u;
  }

  lemma {:induction false} FlatMapPermutes<S, T>(a: seq<S>, b: seq<S>, f: S -> seq<T>)
    requires multiset(a) == multiset(b)
    ensures multiset(FlatMap(a, f)) == multiset(FlatMap(b, f))
  {
    SameMembers(a, b);
    if a != [] {
      var i := LastMatches(a, b);
      var u, x, v := b[..i], b[i], b[i + 1..];
      FlatMapPermutes(a[..|a| - 1], u + v, f);
      assert b == u + [x] + v;
      FlatMapAround(u, x, v, f);
      assert multiset(FlatMap(a, f)) == multiset(FlatMap(a[..|a| - 1], f)) + multiset(f(x));
    } else {
      assert b == [];
    }
  }

  lemma {:induction false} FlatMapMembers<S, T>(s: seq<S>, f: S -> seq<T>, x: T)
    ensures x in FlatMap(s, f) <==> exists y :: y in s && x in f(y)
  {
    if s != [] {
      SplitLast(s);
      FlatMapMembers(s[..|s| - 1], f, x);
    }
  }

  function Filter<T(!new)>(s: seq<T>, p: T -> bool): (r: seq<T>)
    ensures forall x :: x in r <==> x in s && p(x)
  {
    if s == [] then []
    else
      SplitLast(s);
      var rest := Filter(s[..|s| - 1], p);
      if p(s[|s| - 1]) then rest + [s[|s| - 1]] else rest
  }

  lemma NonemptyHasMember<T(!new)>(s: seq<T>)
    ensures s == [] || exists x :: x in s
  {
    if s != [] {
      assert s[0] in s;
    }
  }
}
