/** Small list operations shared by the models: keeping the elements that
    pass a test, and removing the first occurrence of a value. */
module Seqs {

  /** The elements of `s` that satisfy `f`, in their original order. */
  function Filter<T>(s: seq<T>, f: T -> bool): (r: seq<T>)
    ensures forall i :: 0 <= i < |r| ==> r[i] in s && f(r[i])
    ensures forall i :: 0 <= i < |s| && f(s[i]) ==> s[i] in r
    ensures |r| <= |s|
  {
    if |s| == 0 then []
    else if f(s[0]) then [s[0]] + Filter(s[1..], f)
    else Filter(s[1..], f)
  }

  /** The position of the first `x` in `s`, or `|s|` when there is none. */
  function IndexOf<T(==)>(s: seq<T>, x: T): (i: nat)
    ensures i <= |s|
    ensures i < |s| ==> s[i] == x
    ensures forall j :: 0 <= j < i ==> s[j] != x
  {
    if |s| == 0 then 0
    else if s[0] == x then 0
    else 1 + IndexOf(s[1..], x)
  }

  /** The first `x` in `a + b` is the first in `a`, or else the first in
      `b` shifted past `a`. */
  lemma {:induction false} IndexOfConcat<T>(a: seq<T>, b: seq<T>, x: T)
    ensures IndexOf(a + b, x) == if IndexOf(a, x) < |a| then IndexOf(a, x) else |a| + IndexOf(b, x)
    decreases |a|
  {
    if |a| > 0 {
      assert (a + b)[0] == a[0];
      if a[0] != x {
        assert (a + b)[1..] == a[1..] + b;
        IndexOfConcat(a[1..], b, x);
      }
    } else {
      assert a + b == b;
    }
  }

  /** `s` cut around position `i`. */
  lemma SplitAround<T>(s: seq<T>, i: nat)
    requires i < |s|
    ensures s == s[..i] + [s[i]] + s[i + 1..]
  {
  }

  /** Slicing a concatenation inside its first part. */
  lemma SliceConcat<T>(a: seq<T>, b: seq<T>, i: nat)
    requires i <= |a|
    ensures (a + b)[..i] == a[..i] && (a + b)[i..] == a[i..] + b
  {
  }

  /** The rest of `s` from `i` is the part up to `e` and the rest from `e`. */
  lemma SliceJoin<T>(s: seq<T>, i: nat, e: nat)
    requires i <= e <= |s|
    ensures s[i..] == s[i..e] + s[e..]
  {
  }

  lemma ConsAssoc<T>(a: T, b: seq<T>, c: seq<T>)
    ensures [a] + (b + c) == ([a] + b) + c
  {
  }

  /** `s` without its first `x`; `s` itself when `x` does not occur. */
  function RemoveFirst<T(==)>(s: seq<T>, x: T): (r: seq<T>)
    ensures x !in s ==> r == s
    ensures x in s ==> |r| == |s| - 1 && multiset(r) == multiset(s) - multiset{x}
    ensures x in s ==> exists i :: 0 <= i < |s| && s[i] == x && x !in s[..i] && r == s[..i] + s[i + 1..]
  {
    var i := IndexOf(s, x);
    if i == |s| then s
    else
      assert s == s[..i] + [x] + s[i + 1..];
      assert x !in s[..i];
      s[..i] + s[i + 1..]
  }

  /** The lists of `g` one after the other (the cells of a grid in
      row-major order). */
  function Flatten<T>(g: seq<seq<T>>): seq<T> {
    if |g| == 0 then [] else g[0] + Flatten(g[1..])
  }

  lemma {:induction false} FlattenMember<T>(g: seq<seq<T>>, x: T)
    ensures x in Flatten(g) <==> exists i :: 0 <= i < |g| && x in g[i]
  {
    if |g| > 0 {
      FlattenMember(g[1..], x);
      if x in Flatten(g[1..]) {
        var i :| 0 <= i < |g[1..]| && x in g[1..][i];
        assert x in g[i + 1];
      }
      if exists i :: 0 <= i < |g| && x in g[i] {
        var i :| 0 <= i < |g| && x in g[i];
        if i > 0 { assert x in g[1..][i - 1]; }
      }
    }
  }

  lemma {:induction false} FlattenLength<T>(g: seq<seq<T>>, m: nat)
    requires forall r :: 0 <= r < |g| ==> |g[r]| == m
    ensures |Flatten(g)| == |g| * m
  {
    if |g| > 0 {
      FlattenLength(g[1..], m);
      assert |g| * m == (|g| - 1) * m + m;
    }
  }

  /** No element occurs twice. */
  predicate Distinct<T(==)>(s: seq<T>) {
    forall i, j :: 0 <= i < j < |s| ==> s[i] != s[j]
  }

  lemma DistinctConcat<T>(a: seq<T>, b: seq<T>)
    requires Distinct(a) && Distinct(b)
    requires forall x :: x in a ==> x !in b
    ensures Distinct(a + b)
  {
    forall i, j | 0 <= i < j < |a + b| ensures (a + b)[i] != (a + b)[j] {
      if i < |a| && j >= |a| {
        assert (a + b)[i] in a && (a + b)[j] in b;
      }
    }
  }

  /** Lists that are each without repetition and pairwise disjoint
      concatenate to a list without repetition. */
  lemma {:induction false} FlattenDistinct<T>(g: seq<seq<T>>)
    requires forall i :: 0 <= i < |g| ==> Distinct(g[i])
    requires forall i, j, x :: 0 <= i < j < |g| && x in g[i] ==> x !in g[j]
    ensures Distinct(Flatten(g))
  {
    if |g| > 0 {
      FlattenDistinct(g[1..]);
      forall x | x in g[0] ensures x !in Flatten(g[1..]) {
        FlattenMember(g[1..], x);
      }
      DistinctConcat(g[0], Flatten(g[1..]));
    }
  }
}
