/** The LINQ operators of the listing pipeline: `OrderBy` with a comparer
    (a stable sort), `Skip` and `Take`. Like LINQ itself they are generic: the
    comparer is the function `IComparer<T>.Compare`, and the sort relies only
    on the laws that `IsTotalPreorder` names. */
module Linq {

  /** The laws a comparer must obey for a sort by it to be well defined:
      every element ties with itself, swapping the arguments negates the
      result, and "sorts no later than" is transitive. */
  ghost predicate IsTotalPreorder<T(!new)>(cmp: (T, T) -> int) {
    && (forall x :: cmp(x, x) == 0)
    && (forall x, y :: cmp(x, y) == -cmp(y, x))
    && (forall x, y, z {:trigger cmp(x, y), cmp(y, z), cmp(x, z)} ::
          cmp(x, y) <= 0 && cmp(y, z) <= 0 ==> cmp(x, z) <= 0)
  }

  /** Every earlier element compares at most equal to every later one. */
  ghost predicate Sorted<T>(cmp: (T, T) -> int, s: seq<T>) {
    forall i, j :: 0 <= i < j < |s| ==> cmp(s[i], s[j]) <= 0
  }

  /** The elements of `s` that tie with `k`, in their order in `s`. */
  function Ties<T>(cmp: (T, T) -> int, s: seq<T>, k: T): seq<T> {
    if s == [] then []
    else (if cmp(s[0], k) == 0 then [s[0]] else []) + Ties(cmp, s[1..], k)
  }

  /** `ys` keeps the relative order of every group of tying elements of `xs`. */
  ghost predicate Stable<T(!new)>(cmp: (T, T) -> int, xs: seq<T>, ys: seq<T>) {
    forall k :: Ties(cmp, ys, k) == Ties(cmp, xs, k)
  }

  /** Puts `x` in front of the first element it does not sort after. */
  function Insert<T>(cmp: (T, T) -> int, x: T, s: seq<T>): seq<T> {
    if s == [] then [x]
    else if cmp(x, s[0]) <= 0 then [x] + s
    else [s[0]] + Insert(cmp, x, s[1..])
  }

  /** `xs.OrderBy(d => d, comparer)`: a stable sort of `xs`; it rearranges
      the elements and neither adds nor drops any. */
  function OrderBy<T>(cmp: (T, T) -> int, xs: seq<T>): (r: seq<T>)
    ensures multiset(r) == multiset(xs)
    ensures |r| == |xs|
  {
    if xs == [] then []
    else
      var rest := OrderBy(cmp, xs[1..]);
      InsertElements(cmp, xs[0], rest);
      assert xs == [xs[0]] + xs[1..];
      assert |Insert(cmp, xs[0], rest)| == |multiset(Insert(cmp, xs[0], rest))|;
      Insert(cmp, xs[0], rest)
  }

  /** `xs.Skip(n)`: the suffix left after dropping the first `n` elements;
      nothing is dropped when `n <= 0` and everything when `n >= |xs|`. */
  function Skip<T>(xs: seq<T>, n: int): (r: seq<T>)
    ensures |r| == if n <= 0 then |xs| else if n >= |xs| then 0 else |xs| - n
    ensures r == xs[|xs| - |r|..]
  {
    if n <= 0 then xs else if n >= |xs| then [] else xs[n..]
  }

  /** `xs.Take(n)`: the prefix of the first `n` elements; nothing is taken
      when `n <= 0` and everything when `n >= |xs|`. */
  function Take<T>(xs: seq<T>, n: int): (r: seq<T>)
    ensures |r| == if n <= 0 then 0 else if n >= |xs| then |xs| else n
    ensures r == xs[..|r|]
  {
    if n <= 0 then [] else if n >= |xs| then xs else xs[..n]
  }

  lemma {:induction false} InsertElements<T>(cmp: (T, T) -> int, x: T, s: seq<T>)
    ensures multiset(Insert(cmp, x, s)) == multiset(s) + multiset{x}
  {
    if s != [] && cmp(x, s[0]) > 0 {
      InsertElements(cmp, x, s[1..]);
      assert s == [s[0]] + s[1..];
    }
  }

  /** A lower bound of `x` and of every element of `s` bounds `Insert(cmp, x, s)`. */
  lemma {:induction false} InsertBounded<T>(cmp: (T, T) -> int, y: T, x: T, s: seq<T>)
    requires cmp(y, x) <= 0
    requires forall j :: 0 <= j < |s| ==> cmp(y, s[j]) <= 0
    ensures forall j :: 0 <= j < |Insert(cmp, x, s)| ==> cmp(y, Insert(cmp, x, s)[j]) <= 0
  {
    if s != [] && cmp(x, s[0]) > 0 {
      InsertBounded(cmp, y, x, s[1..]);
    }
  }

  lemma {:induction false} InsertSorted<T(!new)>(cmp: (T, T) -> int, x: T, s: seq<T>)
    requires IsTotalPreorder(cmp) && Sorted(cmp, s)
    ensures Sorted(cmp, Insert(cmp, x, s))
  {
    if s == [] {
    } else if cmp(x, s[0]) <= 0 {
      var r := [x] + s;
      forall i, j | 0 <= i < j < |r|
        ensures cmp(r[i], r[j]) <= 0
      {
        if i == 0 && j > 1 {
          assert cmp(x, s[0]) <= 0 && cmp(s[0], s[j - 1]) <= 0;
        }
      }
    } else {
      var t := Insert(cmp, x, s[1..]);
      InsertSorted(cmp, x, s[1..]);
      assert cmp(s[0], x) <= 0;
      InsertBounded(cmp, s[0], x, s[1..]);
      var r := [s[0]] + t;
      forall i, j | 0 <= i < j < |r|
        ensures cmp(r[i], r[j]) <= 0
      {
        assert r[j] == t[j - 1];
        if i > 0 {
          assert r[i] == t[i - 1];
        }
      }
    }
  }

  lemma {:induction false} TiesOfCons<T>(cmp: (T, T) -> int, x: T, s: seq<T>, k: T)
    ensures Ties(cmp, [x] + s, k) == (if cmp(x, k) == 0 then [x] else []) + Ties(cmp, s, k)
  {
    assert ([x] + s)[1..] == s;
  }

  /** Two elements that tie with the same key tie with each other. */
  lemma TiesWithSameKey<T(!new)>(cmp: (T, T) -> int, a: T, b: T, k: T)
    requires IsTotalPreorder(cmp)
    ensures cmp(a, k) == 0 && cmp(b, k) == 0 ==> cmp(a, b) == 0
  {
    if cmp(a, k) == 0 && cmp(b, k) == 0 {
      assert cmp(k, b) == 0;
      assert cmp(b, a) <= 0;
    }
  }

  /** Inserting `x` adds it in front of the elements it ties with. */
  lemma {:induction false} InsertTies<T(!new)>(cmp: (T, T) -> int, x: T, s: seq<T>, k: T)
    requires IsTotalPreorder(cmp)
    ensures Ties(cmp, Insert(cmp, x, s), k) == (if cmp(x, k) == 0 then [x] else []) + Ties(cmp, s, k)
  {
    if s == [] {
    } else if cmp(x, s[0]) <= 0 {
      TiesOfCons(cmp, x, s, k);
    } else {
      var t := Insert(cmp, x, s[1..]);
      assert Insert(cmp, x, s) == [s[0]] + t;
      InsertTies(cmp, x, s[1..], k);
      TiesOfCons(cmp, s[0], t, k);
      assert s == [s[0]] + s[1..];
      TiesOfCons(cmp, s[0], s[1..], k);
      TiesWithSameKey(cmp, x, s[0], k);
      if cmp(x, k) == 0 {
        // x would tie with s[0] if s[0] tied with k, but x sorts after it
        assert Ties(cmp, Insert(cmp, x, s), k) == Ties(cmp, t, k);
        assert Ties(cmp, s, k) == Ties(cmp, s[1..], k);
      } else {
        assert Ties(cmp, t, k) == Ties(cmp, s[1..], k);
      }
    }
  }

  lemma {:induction false} OrderBySorted<T(!new)>(cmp: (T, T) -> int, xs: seq<T>)
    requires IsTotalPreorder(cmp)
    ensures Sorted(cmp, OrderBy(cmp, xs))
  {
    if xs != [] {
      OrderBySorted(cmp, xs[1..]);
      InsertSorted(cmp, xs[0], OrderBy(cmp, xs[1..]));
    }
  }

  lemma {:induction false} OrderByStable<T(!new)>(cmp: (T, T) -> int, xs: seq<T>)
    requires IsTotalPreorder(cmp)
    ensures Stable(cmp, xs, OrderBy(cmp, xs))
  {
    if xs != [] {
      var rest := OrderBy(cmp, xs[1..]);
      assert OrderBy(cmp, xs) == Insert(cmp, xs[0], rest);
      OrderByStable(cmp, xs[1..]);
      assert xs == [xs[0]] + xs[1..];
      forall k
        ensures Ties(cmp, OrderBy(cmp, xs), k) == Ties(cmp, xs, k)
      {
        InsertTies(cmp, xs[0], rest, k);
        TiesOfCons(cmp, xs[0], xs[1..], k);
      }
    }
  }

  /** `OrderBy` returns a sorted permutation of its input that keeps tying
      elements in their input order. */
  lemma OrderBySpec<T(!new)>(cmp: (T, T) -> int, xs: seq<T>)
    requires IsTotalPreorder(cmp)
    ensures Sorted(cmp, OrderBy(cmp, xs))
    ensures multiset(OrderBy(cmp, xs)) == multiset(xs)
    ensures Stable(cmp, xs, OrderBy(cmp, xs))
  {
    OrderBySorted(cmp, xs);
    OrderByStable(cmp, xs);
  }

  /** The first elements of two sorted, stable arrangements of the same
      elements coincide. */
  lemma HeadsAgree<T(!new)>(cmp: (T, T) -> int, a: seq<T>, b: seq<T>)
    requires IsTotalPreorder(cmp)
    requires Sorted(cmp, a) && Sorted(cmp, b) && a != [] && b != []
    requires multiset(a) == multiset(b)
    requires Ties(cmp, a, a[0]) == Ties(cmp, b, a[0])
    ensures a[0] == b[0]
  {
    var x, y := a[0], b[0];
    assert y in multiset(b);
    var i :| 0 <= i < |a| && a[i] == y;
    assert cmp(x, y) <= 0 by {
      if i == 0 {
        assert cmp(x, x) == 0;
      }
    }
    assert x in multiset(a);
    var j :| 0 <= j < |b| && b[j] == x;
    assert cmp(y, x) <= 0 by {
      if j == 0 {
        assert cmp(y, y) == 0;
      }
    }
    assert cmp(x, y) == -cmp(y, x) && cmp(x, x) == 0;
    assert Ties(cmp, a, x) == [x] + Ties(cmp, a[1..], x);
    assert Ties(cmp, b, x) == [y] + Ties(cmp, b[1..], x);
    assert Ties(cmp, a, x)[0] == x && Ties(cmp, b, x)[0] == y;
  }

  /** Dropping a common first element keeps the arrangements stable. */
  lemma TailsStable<T(!new)>(cmp: (T, T) -> int, a: seq<T>, b: seq<T>)
    requires a != [] && b != [] && a[0] == b[0]
    requires Stable(cmp, a, b)
    ensures Stable(cmp, a[1..], b[1..])
  {
    var x := a[0];
    assert a == [x] + a[1..] && b == [x] + b[1..];
    forall k
      ensures Ties(cmp, b[1..], k) == Ties(cmp, a[1..], k)
    {
      var p := if cmp(x, k) == 0 then [x] else [];
      TiesOfCons(cmp, x, a[1..], k);
      TiesOfCons(cmp, x, b[1..], k);
      assert p + Ties(cmp, b[1..], k) == Ties(cmp, b, k) == Ties(cmp, a, k) == p + Ties(cmp, a[1..], k);
      assert Ties(cmp, b[1..], k) == (p + Ties(cmp, b[1..], k))[|p|..];
      assert Ties(cmp, a[1..], k) == (p + Ties(cmp, a[1..], k))[|p|..];
    }
  }

  /** Dropping a common first element leaves the same elements behind. */
  lemma TailsSameElements<T>(a: seq<T>, b: seq<T>)
    requires a != [] && b != [] && a[0] == b[0] && multiset(a) == multiset(b)
    ensures multiset(a[1..]) == multiset(b[1..])
  {
    assert a == [a[0]] + a[1..] && b == [b[0]] + b[1..];
    assert multiset(a) == multiset{a[0]} + multiset(a[1..]);
    assert multiset(b) == multiset{a[0]} + multiset(b[1..]);
    assert multiset(a[1..]) == multiset(a) - multiset{a[0]};
    assert multiset(b[1..]) == multiset(b) - multiset{a[0]};
  }

  /** Two sorted, stable arrangements of the same elements are equal. */
  lemma {:induction false} SortedStableEqual<T(!new)>(cmp: (T, T) -> int, a: seq<T>, b: seq<T>)
    requires IsTotalPreorder(cmp)
    requires Sorted(cmp, a) && Sorted(cmp, b)
    requires multiset(a) == multiset(b)
    requires Stable(cmp, a, b)
    ensures a == b
  {
    assert |a| == |multiset(a)| == |multiset(b)| == |b|;
    if a != [] {
      assert Ties(cmp, b, a[0]) == Ties(cmp, a, a[0]);
      HeadsAgree(cmp, a, b);
      TailsStable(cmp, a, b);
      TailsSameElements(a, b);
      SortedStableEqual(cmp, a[1..], b[1..]);
      assert a == [a[0]] + a[1..] && b == [b[0]] + b[1..];
    }
  }

  /** `OrderBy` is THE stable sort: any sorted permutation of `xs` that keeps
      tying elements in input order is `OrderBy(cmp, xs)`. */
  lemma StableSortIsUnique<T(!new)>(cmp: (T, T) -> int, xs: seq<T>, ys: seq<T>)
    requires IsTotalPreorder(cmp)
    requires Sorted(cmp, ys) && multiset(ys) == multiset(xs) && Stable(cmp, xs, ys)
    ensures ys == OrderBy(cmp, xs)
  {
    OrderBySpec(cmp, xs);
    SortedStableEqual(cmp, ys, OrderBy(cmp, xs));
  }

  /** Where `Skip` then `Take` land: the slice from the clamped skip count
      `lo`, at most `m` long. */
  lemma TakeSkipIsSlice<T>(xs: seq<T>, n: int, m: int, lo: nat, hi: nat)
    requires lo == if n <= 0 then 0 else if n >= |xs| then |xs| else n
    requires hi == if m <= 0 then lo else if lo + m >= |xs| then |xs| else lo + m
    ensures lo <= hi <= |xs|
    ensures Take(Skip(xs, n), m) == xs[lo..hi]
  {
  }

  /** A slice of a sorted sequence is sorted and draws on its elements. */
  lemma SliceOfSorted<T>(cmp: (T, T) -> int, xs: seq<T>, lo: nat, hi: nat)
    requires lo <= hi <= |xs| && Sorted(cmp, xs)
    ensures Sorted(cmp, xs[lo..hi])
    ensures multiset(xs[lo..hi]) <= multiset(xs)
  {
    assert xs == xs[..lo] + xs[lo..hi] + xs[hi..];
    assert multiset(xs) == multiset(xs[..lo]) + multiset(xs[lo..hi]) + multiset(xs[hi..]);
  }
}
