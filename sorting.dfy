/** Ordering helpers: the stable sort that Python's `list.sort` and
    JavaScript's `Array.prototype.sort` perform, and the enumeration of a
    table's integer keys in the order `ORDER BY id` / `ORDER BY id DESC`
    returns them. */
module Sorting {

  /** `le` relates every pair one way or the other. */
  ghost predicate Total<T(!new)>(le: (T, T) -> bool) {
    forall a: T, b: T :: le(a, b) || le(b, a)
  }

  /** Every neighbouring pair is in order. */
  predicate Sorted<T>(s: seq<T>, le: (T, T) -> bool) {
    forall i :: 0 < i < |s| ==> le(s[i - 1], s[i])
  }

  /** Puts `x` in front of the first element it is `le` to; elements that
      compare equal to `x` stay behind it, so inserting the elements from the
      back gives a stable sort. */
  function Insert<T>(x: T, ys: seq<T>, le: (T, T) -> bool): (r: seq<T>)
    ensures multiset(r) == multiset(ys) + multiset{x}
    ensures |r| == |ys| + 1
    ensures |ys| == 0 ==> r == [x]
    ensures |ys| > 0 ==> r[0] == x || r[0] == ys[0]
    decreases |ys|
  {
    if |ys| == 0 || le(x, ys[0]) then [x] + ys
    else
      assert ys == [ys[0]] + ys[1..];
      [ys[0]] + Insert(x, ys[1..], le)
  }

  /** Stable insertion sort of `xs` by `le`. */
  function SortBy<T>(xs: seq<T>, le: (T, T) -> bool): (r: seq<T>)
    ensures multiset(r) == multiset(xs)
    ensures |r| == |xs|
    decreases |xs|
  {
    if |xs| == 0 then []
    else
      assert xs == [xs[0]] + xs[1..];
      Insert(xs[0], SortBy(xs[1..], le), le)
  }

  /** Sorting keeps exactly the elements it is given. */
  lemma SortByMembers<T(!new)>(xs: seq<T>, le: (T, T) -> bool)
    ensures forall x :: x in SortBy(xs, le) <==> x in xs
  {
    var r := SortBy(xs, le);
    forall x ensures x in r <==> x in xs {
      assert x in r <==> x in multiset(r);
      assert x in xs <==> x in multiset(xs);
    }
  }

  lemma {:induction false} InsertSorted<T(!new)>(x: T, ys: seq<T>, le: (T, T) -> bool)
    requires Total(le)
    requires Sorted(ys, le)
    ensures Sorted(Insert(x, ys, le), le)
    decreases |ys|
  {
    if |ys| > 0 && !le(x, ys[0]) {
      assert le(ys[0], x);
      InsertSorted(x, ys[1..], le);
      var tail := Insert(x, ys[1..], le);
      assert Insert(x, ys, le) == [ys[0]] + tail;
      if |ys| > 1 {
        assert tail[0] == x || tail[0] == ys[1];
      }
    }
  }

  /** With a total comparison the result is in order. */
  lemma {:induction false} SortBySorted<T(!new)>(xs: seq<T>, le: (T, T) -> bool)
    requires Total(le)
    ensures Sorted(SortBy(xs, le), le)
    decreases |xs|
  {
    if |xs| > 0 {
      SortBySorted(xs[1..], le);
      InsertSorted(xs[0], SortBy(xs[1..], le), le);
    }
  }

  /** A prefix of a sorted sequence is sorted. */
  lemma SortedPrefix<T>(s: seq<T>, n: nat, le: (T, T) -> bool)
    requires Sorted(s, le) && n <= |s|
    ensures Sorted(s[..n], le)
  {
  }

  /** The first `n` of a sorted sequence keep only elements of the input. */
  lemma TakeSortByMembers<T(!new)>(xs: seq<T>, le: (T, T) -> bool, n: int)
    ensures forall x :: x in Take(SortBy(xs, le), n) ==> x in xs
  {
    SortByMembers(xs, le);
    var r := Take(SortBy(xs, le), n);
    forall x | x in r ensures x in xs {
      var i :| 0 <= i < |r| && r[i] == x;
      assert x == SortBy(xs, le)[i];
    }
  }

  /** The first `n` of a sorted sequence are in order. */
  lemma TakeSortBySorted<T(!new)>(xs: seq<T>, le: (T, T) -> bool, n: int)
    requires Total(le)
    ensures Sorted(Take(SortBy(xs, le), n), le)
  {
    SortBySorted(xs, le);
    SortedPrefix(SortBy(xs, le), |Take(SortBy(xs, le), n)|, le);
  }

  ghost predicate Transitive<T(!new)>(le: (T, T) -> bool) {
    forall a: T, b: T, c: T :: le(a, b) && le(b, c) ==> le(a, c)
  }

  /** In a sorted sequence every earlier element is `le` every later one. */
  lemma {:induction false} SortedChain<T(!new)>(s: seq<T>, le: (T, T) -> bool, i: nat, j: nat)
    requires Transitive(le) && Sorted(s, le)
    requires i < j < |s|
    ensures le(s[i], s[j])
    decreases j - i
  {
    if i + 1 < j {
      SortedChain(s, le, i, j - 1);
      assert le(s[j - 1], s[j]);
    }
  }

  /** What the first `n` of a sort leave out comes after everything they
      keep, and then they keep `n` elements. */
  lemma DroppedFollowsKept<T(!new)>(xs: seq<T>, le: (T, T) -> bool, n: int, x: T)
    requires Total(le) && Transitive(le)
    requires x in xs && x !in Take(SortBy(xs, le), n)
    ensures n >= 0 ==> |Take(SortBy(xs, le), n)| == n
    ensures forall y :: y in Take(SortBy(xs, le), n) ==> le(y, x)
  {
    var s := SortBy(xs, le);
    var r := Take(s, n);
    SortByMembers(xs, le);
    SortBySorted(xs, le);
    var j :| 0 <= j < |s| && s[j] == x;
    forall y | y in r ensures le(y, x) {
      var i :| 0 <= i < |r| && r[i] == y;
      assert s[i] == y;
      SortedChain(s, le, i, j);
    }
  }

  /** The number of elements of `s` that satisfy `p`. */
  function Count<T>(s: seq<T>, p: T -> bool): (r: nat)
    ensures r <= |s|
    decreases |s|
  {
    if |s| == 0 then 0 else (if p(s[0]) then 1 else 0) + Count(s[1..], p)
  }

  lemma {:induction false} CountAppend<T>(a: seq<T>, b: seq<T>, p: T -> bool)
    ensures Count(a + b, p) == Count(a, p) + Count(b, p)
    decreases |a|
  {
    if |a| > 0 {
      assert (a + b)[1..] == a[1..] + b;
      CountAppend(a[1..], b, p);
    } else {
      assert a + b == b;
    }
  }

  lemma {:induction false} CountInsert<T>(x: T, ys: seq<T>, le: (T, T) -> bool, p: T -> bool)
    ensures Count(Insert(x, ys, le), p) == Count([x], p) + Count(ys, p)
    decreases |ys|
  {
    if |ys| > 0 && !le(x, ys[0]) {
      CountInsert(x, ys[1..], le, p);
      assert Insert(x, ys, le)[1..] == Insert(x, ys[1..], le);
      assert Count([ys[0]] + ys[1..], p) == Count(ys, p) by { assert [ys[0]] + ys[1..] == ys; }
    } else {
      assert ([x] + ys)[1..] == ys;
    }
  }

  /** Sorting does not change how many elements satisfy `p`. */
  lemma {:induction false} CountSortBy<T>(xs: seq<T>, le: (T, T) -> bool, p: T -> bool)
    ensures Count(SortBy(xs, le), p) == Count(xs, p)
    decreases |xs|
  {
    if |xs| > 0 {
      CountSortBy(xs[1..], le, p);
      CountInsert(xs[0], SortBy(xs[1..], le), le, p);
      assert Count([xs[0]] + xs[1..], p) == Count(xs, p) by { assert [xs[0]] + xs[1..] == xs; }
      CountAppend([xs[0]], xs[1..], p);
    }
  }

  /** When every element satisfies `p`, all of them count. */
  lemma {:induction false} CountEvery<T>(s: seq<T>, p: T -> bool)
    requires forall i :: 0 <= i < |s| ==> p(s[i])
    ensures Count(s, p) == |s|
    decreases |s|
  {
    if |s| > 0 {
      CountEvery(s[1..], p);
    }
  }

  /** When no element satisfies `p`, none counts. */
  lemma {:induction false} CountNone<T>(s: seq<T>, p: T -> bool)
    requires forall i :: 0 <= i < |s| ==> !p(s[i])
    ensures Count(s, p) == 0
    decreases |s|
  {
    if |s| > 0 {
      CountNone(s[1..], p);
    }
  }

  // ---------------------------------------------------------------------
  // Integer keys in order
  // ---------------------------------------------------------------------

  predicate StrictlyIncreasing(s: seq<int>) {
    forall i, j :: 0 <= i < j < |s| ==> s[i] < s[j]
  }

  predicate StrictlyDecreasing(s: seq<int>) {
    forall i, j :: 0 <= i < j < |s| ==> s[i] > s[j]
  }

  predicate IsMin(m: int, s: set<int>) {
    m in s && forall y :: y in s ==> m <= y
  }

  lemma EmptyIfNoElement(s: set<int>)
    requires forall y :: y !in s
    ensures s == {}
  {
    assert forall y :: y in s <==> y in {};
  }

  /** A non-empty set has an element. */
  lemma HasElement(s: set<int>)
    requires s != {}
    ensures exists x :: x in s
  {
    if forall y :: y !in s {
      EmptyIfNoElement(s);
    }
  }

  lemma {:induction false} MinExists(s: set<int>)
    requires s != {}
    ensures exists m :: IsMin(m, s)
    decreases |s|
  {
    HasElement(s);
    var x :| x in s;
    var rest := s - {x};
    assert forall y :: y in s ==> y == x || y in rest;
    if rest == {} {
      assert IsMin(x, s);
    } else {
      MinExists(rest);
      var m :| IsMin(m, rest);
      var least := if x < m then x else m;
      assert IsMin(least, s);
    }
  }

  /** The smallest element of a non-empty set. */
  function Min(s: set<int>): (m: int)
    requires s != {}
    ensures IsMin(m, s)
  {
    MinExists(s);
    var m :| IsMin(m, s);
    m
  }

  predicate IsMax(m: int, s: set<int>) {
    m in s && forall y :: y in s ==> y <= m
  }

  lemma {:induction false} MaxExists(s: set<int>)
    requires s != {}
    ensures exists m :: IsMax(m, s)
    decreases |s|
  {
    HasElement(s);
    var x :| x in s;
    var rest := s - {x};
    assert forall y :: y in s ==> y == x || y in rest;
    if rest == {} {
      assert IsMax(x, s);
    } else {
      MaxExists(rest);
      var m :| IsMax(m, rest);
      var most := if x > m then x else m;
      assert IsMax(most, s);
    }
  }

  /** The largest element of a non-empty set. */
  function Max(s: set<int>): (m: int)
    requires s != {}
    ensures IsMax(m, s)
  {
    MaxExists(s);
    var m :| IsMax(m, s);
    m
  }

  /** The keys of `s` from smallest to largest (`ORDER BY id`). */
  function Ascending(s: set<int>): (r: seq<int>)
    ensures |r| == |s|
    ensures forall x :: x in r <==> x in s
    ensures StrictlyIncreasing(r)
    decreases |s|
  {
    if s == {} then []
    else
      MinExists(s);
      var m :| IsMin(m, s);
      var rest := Ascending(s - {m});
      AscendingCons(m, s, rest);
      [m] + rest
  }

  /** Putting the least element in front of the others in order gives the
      whole set in order. */
  lemma AscendingCons(m: int, s: set<int>, rest: seq<int>)
    requires IsMin(m, s)
    requires |rest| == |s - {m}| && StrictlyIncreasing(rest)
    requires forall x :: x in rest <==> x in s - {m}
    ensures |[m] + rest| == |s|
    ensures forall x :: x in [m] + rest <==> x in s
    ensures StrictlyIncreasing([m] + rest)
  {
    var r := [m] + rest;
    forall i | 0 <= i < |rest| ensures m < rest[i] {
      assert rest[i] in rest;
    }
    forall i, j | 0 <= i < j < |r| ensures r[i] < r[j] {
      if i > 0 {
        assert r[i] == rest[i - 1] && r[j] == rest[j - 1];
      } else {
        assert r[j] == rest[j - 1];
      }
    }
    forall x ensures x in r <==> x in s {
      assert x in r <==> x == m || x in rest;
    }
  }

  function Reverse<T>(s: seq<T>): (r: seq<T>)
    ensures |r| == |s|
    ensures forall i :: 0 <= i < |s| ==> r[i] == s[|s| - 1 - i]
    decreases |s|
  {
    if |s| == 0 then [] else Reverse(s[1..]) + [s[0]]
  }

  /** The keys of `s` from largest to smallest (`ORDER BY id DESC`). */
  function Descending(s: set<int>): (r: seq<int>)
    ensures |r| == |s|
    ensures forall x :: x in r <==> x in s
    ensures StrictlyDecreasing(r)
  {
    var a := Ascending(s);
    ReverseIncreasing(a);
    Reverse(a)
  }

  /** Reversing an increasing sequence gives a decreasing one with the
      same elements. */
  lemma ReverseIncreasing(a: seq<int>)
    requires StrictlyIncreasing(a)
    ensures forall x :: x in Reverse(a) <==> x in a
    ensures StrictlyDecreasing(Reverse(a))
  {
    var r := Reverse(a);
    forall x ensures x in r <==> x in a {
      if x in a {
        var i :| 0 <= i < |a| && a[i] == x;
        assert r[|a| - 1 - i] == x;
      }
      if x in r {
        var i :| 0 <= i < |r| && r[i] == x;
        assert a[|a| - 1 - i] == x;
      }
    }
    forall i, j | 0 <= i < j < |r| ensures r[i] > r[j] {
      assert r[i] == a[|a| - 1 - i] && r[j] == a[|a| - 1 - j];
    }
  }

  /** The `m` largest elements of `s`, largest first (`ORDER BY id DESC
      LIMIT m`). */
  function Largest(s: set<int>, m: int): (r: seq<int>)
    ensures |r| == if m < 0 then 0 else if m < |s| then m else |s|
    ensures forall i :: 0 <= i < |r| ==> r[i] in s
    ensures StrictlyDecreasing(r)
  {
    var r := Take(Descending(s), m);
    DescendingPrefix(s, r);
    r
  }

  lemma DescendingPrefix(s: set<int>, r: seq<int>)
    requires |r| <= |s| && r == Descending(s)[..|r|]
    ensures forall i :: 0 <= i < |r| ==> r[i] in s
    ensures StrictlyDecreasing(r)
  {
    var all := Descending(s);
    forall i | 0 <= i < |r| ensures r[i] in s {
      assert r[i] == all[i] && all[i] in all;
    }
    forall i, j | 0 <= i < j < |r| ensures r[i] > r[j] {
      assert r[i] == all[i] && r[j] == all[j];
    }
  }

  /** An element `Largest` leaves out is smaller than every element it
      keeps, and then it keeps `m` of them. */
  lemma LargestKeepsNewest(s: set<int>, m: nat, k: int)
    requires k in s && k !in Largest(s, m)
    ensures |Largest(s, m)| == m
    ensures forall i :: 0 <= i < |Largest(s, m)| ==> Largest(s, m)[i] > k
  {
    var all := Descending(s);
    var r := Largest(s, m);
    assert r == all[..|r|];
    PrefixMisses(all, r, k);
  }

  /** A prefix of a decreasing sequence that misses one of its elements
      stops before it. */
  lemma PrefixMisses(all: seq<int>, r: seq<int>, k: int)
    requires StrictlyDecreasing(all) && |r| <= |all| && r == all[..|r|]
    requires k in all && k !in r
    ensures |r| < |all|
    ensures forall i :: 0 <= i < |r| ==> r[i] > k
  {
    var j :| 0 <= j < |all| && all[j] == k;
    PrefixIndex(all, r, j);
    forall i | 0 <= i < |r| ensures r[i] > k {
      assert r[i] == all[i];
    }
  }

  lemma PrefixIndex(xs: seq<int>, r: seq<int>, j: nat)
    requires |r| <= |xs| && r == xs[..|r|] && j < |xs|
    ensures j < |r| ==> xs[j] in r
  {
    if j < |r| {
      assert r[j] == xs[j];
    }
  }

  /** The first `n` elements, or all of them when there are fewer
      (`LIMIT n` for `n >= 0`); nothing for a negative `n`. */
  function Take<T>(xs: seq<T>, n: int): (r: seq<T>)
    ensures |r| == if n < 0 then 0 else if n < |xs| then n else |xs|
    ensures r == xs[..|r|]
  {
    if n <= 0 then [] else if n < |xs| then xs[..n] else xs
  }
}
