/** Sorting and filtering of sequences, the library calls the tool relies on. */
module Sorting {
  function Insert<T>(x: T, sorted: seq<T>, le: (T, T) -> bool): seq<T> {
    if sorted == [] || le(x, sorted[0]) then [x] + sorted
    else [sorted[0]] + Insert(x, sorted[1..], le)
  }

  function Sort<T>(xs: seq<T>, le: (T, T) -> bool): seq<T> {
    if xs == [] then [] else Insert(xs[0], Sort(xs[1..], le), le)
  }

  ghost predicate Ordered<T>(xs: seq<T>, le: (T, T) -> bool) {
    forall i, j :: 0 <= i < j < |xs| ==> le(xs[i], xs[j])
  }

  ghost predicate TotalOrder<T(!new)>(le: (T, T) -> bool) {
    && (forall a, b :: le(a, b) || le(b, a))
    && (forall a, b, c :: le(a, b) && le(b, c) ==> le(a, c))
  }

  lemma {:induction false} InsertPermutes<T>(x: T, sorted: seq<T>, le: (T, T) -> bool)
    ensures multiset(Insert(x, sorted, le)) == multiset(sorted) + multiset{x}
  {
    if sorted != [] && !le(x, sorted[0]) {
      InsertPermutes(x, sorted[1..], le);
      assert sorted == [sorted[0]] + sorted[1..];
    }
  }

  lemma {:induction false} SortPermutes<T>(xs: seq<T>, le: (T, T) -> bool)
    ensures multiset(Sort(xs, le)) == multiset(xs)
    ensures |Sort(xs, le)| == |xs|
  {
    if xs != [] {
      SortPermutes(xs[1..], le);
      InsertPermutes(xs[0], Sort(xs[1..], le), le);
      assert xs == [xs[0]] + xs[1..];
    }
    assert |multiset(Sort(xs, le))| == |multiset(xs)|;
  }

  lemma MultisetMembers<T>(a: seq<T>, b: seq<T>)
    requires multiset(a) == multiset(b)
    ensures forall x :: x in a <==> x in b
  {
    forall x
      ensures x in a <==> x in b
    {
      assert x in a <==> x in multiset(a);
    }
  }

  lemma OrderedCons<T(!new)>(x: T, xs: seq<T>, le: (T, T) -> bool)
    requires Ordered(xs, le) && forall y :: y in xs ==> le(x, y)
    ensures Ordered([x] + xs, le)
  {}

  lemma {:induction false} InsertOrders<T(!new)>(x: T, sorted: seq<T>, le: (T, T) -> bool)
    requires TotalOrder(le) && Ordered(sorted, le)
    ensures Ordered(Insert(x, sorted, le), le)
  {
    if sorted == [] || le(x, sorted[0]) {
      OrderedCons(x, sorted, le);
    } else {
      var tail := Insert(x, sorted[1..], le);
      InsertOrders(x, sorted[1..], le);
      InsertPermutes(x, sorted[1..], le);
      MultisetMembers(tail, sorted[1..] + [x]);
      assert le(sorted[0], x);
      OrderedCons(sorted[0], tail, le);
    }
  }

  lemma {:induction false} SortOrders<T(!new)>(xs: seq<T>, le: (T, T) -> bool)
    requires TotalOrder(le)
    ensures Ordered(Sort(xs, le), le)
  {
    if xs != [] {
      SortOrders(xs[1..], le);
      InsertOrders(xs[0], Sort(xs[1..], le), le);
    }
  }

  function Filter<T>(xs: seq<T>, keep: T -> bool): seq<T> {
    if xs == [] then []
    else
      var last := xs[|xs| - 1];
      Filter(xs[..|xs| - 1], keep) + if keep(last) then [last] else []
  }

  lemma {:induction false} FilterMembers<T>(xs: seq<T>, keep: T -> bool)
    ensures forall x :: x in Filter(xs, keep) <==> x in xs && keep(x)
  {
    if xs != [] {
      FilterMembers(xs[..|xs| - 1], keep);
    }
  }

  lemma {:induction false} FilterKeepsOrder<T(!new)>(xs: seq<T>, keep: T -> bool, le: (T, T) -> bool)
    requires Ordered(xs, le)
    ensures Ordered(Filter(xs, keep), le)
  {
    if xs != [] {
      var front, last := Filter(xs[..|xs| - 1], keep), xs[|xs| - 1];
      FilterKeepsOrder(xs[..|xs| - 1], keep, le);
      FilterMembers(xs[..|xs| - 1], keep);
      forall y | y in front
        ensures le(y, last)
      {
        var i :| 0 <= i < |xs| - 1 && xs[i] == y;
      }
    }
  }

  /** What a filter keeps of a multiset depends on the multiset alone. */
  lemma {:induction false} FilterCount<T>(xs: seq<T>, keep: T -> bool, x: T)
    ensures multiset(Filter(xs, keep))[x] == if keep(x) then multiset(xs)[x] else 0
  {
    if xs != [] {
      FilterCount(xs[..|xs| - 1], keep, x);
      assert xs == xs[..|xs| - 1] + [xs[|xs| - 1]];
    }
  }

  /** Two filters that share nothing together keep what their union keeps. */
  lemma FilterUnion<T>(xs: seq<T>, p: T -> bool, q: T -> bool, either: T -> bool)
    requires forall x :: x in xs ==> !(p(x) && q(x)) && (either(x) <==> p(x) || q(x))
    ensures multiset(Filter(xs, either)) == multiset(Filter(xs, p)) + multiset(Filter(xs, q))
  {
    var all, parts := multiset(Filter(xs, either)), multiset(Filter(xs, p)) + multiset(Filter(xs, q));
    forall x: T
      ensures all[x] == parts[x]
    {
      FilterCount(xs, p, x);
      FilterCount(xs, q, x);
      FilterCount(xs, either, x);
    }
    SameCounts(all, parts);
  }

  lemma {:induction false} FilterNothing<T>(xs: seq<T>, keep: T -> bool)
    requires forall x :: x in xs ==> !keep(x)
    ensures Filter(xs, keep) == []
  {
    if xs != [] {
      FilterNothing(xs[..|xs| - 1], keep);
    }
  }

  lemma {:induction false} FilterConcat<T>(a: seq<T>, b: seq<T>, keep: T -> bool)
    ensures Filter(a + b, keep) == Filter(a, keep) + Filter(b, keep)
    decreases |b|
  {
    if b == [] {
      assert a + b == a;
    } else {
      var last := |b| - 1;
      var both := a + b;
      assert both[..|both| - 1] == a + b[..last] && both[|both| - 1] == b[last];
      FilterConcat(a, b[..last], keep);
    }
  }

  lemma {:induction false} FilterLength<T>(xs: seq<T>, keep: T -> bool)
    ensures |Filter(xs, keep)| <= |xs|
    ensures (forall x :: x in xs ==> keep(x)) ==> |Filter(xs, keep)| == |xs|
  {
    if xs != [] {
      FilterLength(xs[..|xs| - 1], keep);
      assert xs[|xs| - 1] in xs;
    }
  }

  /** What a filter keeps, as a multiset, does not depend on the order. */
  lemma FilterOfPermutation<T>(xs: seq<T>, ys: seq<T>, keep: T -> bool)
    requires multiset(xs) == multiset(ys)
    ensures multiset(Filter(xs, keep)) == multiset(Filter(ys, keep))
    ensures |Filter(xs, keep)| == |Filter(ys, keep)|
  {
    var before, after := multiset(Filter(xs, keep)), multiset(Filter(ys, keep));
    forall x: T
      ensures before[x] == after[x]
    {
      FilterCount(xs, keep, x);
      FilterCount(ys, keep, x);
    }
    SameCounts(before, after);
    assert |before| == |after|;
  }

  lemma SameCounts<T>(a: multiset<T>, b: multiset<T>)
    requires forall x: T :: a[x] == b[x]
    ensures a == b
  {}

  lemma {:induction false} FilterCongruent<T>(xs: seq<T>, p: T -> bool, q: T -> bool)
    requires forall x :: x in xs ==> (p(x) <==> q(x))
    ensures Filter(xs, p) == Filter(xs, q)
  {
    if xs != [] {
      FilterCongruent(xs[..|xs| - 1], p, q);
    }
  }

  /** The results of `f` over a sequence, one after the other. */
  function FlatMap<T, R>(xs: seq<T>, f: T -> seq<R>): seq<R> {
    if xs == [] then [] else FlatMap(xs[..|xs| - 1], f) + f(xs[|xs| - 1])
  }

  lemma {:induction false} FlatMapConcat<T, R>(a: seq<T>, b: seq<T>, f: T -> seq<R>)
    ensures FlatMap(a + b, f) == FlatMap(a, f) + FlatMap(b, f)
    decreases |b|
  {
    if b == [] {
      assert a + b == a;
    } else {
      var last := |b| - 1;
      var both := a + b;
      assert both[..|both| - 1] == a + b[..last] && both[|both| - 1] == b[last];
      FlatMapConcat(a, b[..last], f);
    }
  }

  lemma FlatMapOne<T, R>(x: T, f: T -> seq<R>)
    ensures FlatMap([x], f) == f(x)
  {}

  lemma FlatMapAppend<T, R>(xs: seq<T>, f: T -> seq<R>, i: nat)
    requires i < |xs|
    ensures FlatMap(xs[..i + 1], f) == FlatMap(xs[..i], f) + f(xs[i])
  {
    assert xs[..i + 1][..i] == xs[..i];
  }

  lemma {:induction false} FlatMapMember<T, R>(xs: seq<T>, f: T -> seq<R>, y: R) returns (x: T)
    requires y in FlatMap(xs, f)
    ensures x in xs && y in f(x)
  {
    var last := |xs| - 1;
    if y in f(xs[last]) {
      x := xs[last];
    } else {
      x := FlatMapMember(xs[..last], f, y);
    }
  }

  lemma {:induction false} FlatMapEmpty<T, R>(xs: seq<T>, f: T -> seq<R>)
    ensures FlatMap(xs, f) == [] <==> forall x :: x in xs ==> f(x) == []
  {
    if xs != [] {
      FlatMapEmpty(xs[..|xs| - 1], f);
      assert xs[|xs| - 1] in xs;
    }
  }

  lemma FlatMapFive<T, R>(a: seq<T>, b: seq<T>, c: seq<T>, d: seq<T>, e: seq<T>, f: T -> seq<R>)
    ensures FlatMap(a + b + c + d + e, f)
         == FlatMap(a, f) + FlatMap(b, f) + FlatMap(c, f) + FlatMap(d, f) + FlatMap(e, f)
  {
    FlatMapConcat(a + b + c + d, e, f);
    FlatMapConcat(a + b + c, d, f);
    FlatMapConcat(a + b, c, f);
    FlatMapConcat(a, b, f);
  }

  lemma {:induction false} MemberOfFlatMap<T, R>(xs: seq<T>, f: T -> seq<R>, x: T, y: R)
    requires x in xs && y in f(x)
    ensures y in FlatMap(xs, f)
  {
    if y !in f(xs[|xs| - 1]) {
      MemberOfFlatMap(xs[..|xs| - 1], f, x, y);
    }
  }

  lemma RemoveOne<T>(before: seq<T>, x: T, after: seq<T>)
    ensures multiset(before + [x] + after) == multiset(before + after) + multiset{x}
  {}

  lemma FlatMapAround<T, R>(before: seq<T>, x: T, after: seq<T>, f: T -> seq<R>)
    ensures multiset(FlatMap(before + [x] + after, f)) == multiset(FlatMap(before + after, f)) + multiset(f(x))
  {
    FlatMapConcat(before + [x], after, f);
    FlatMapConcat(before, [x], f);
    FlatMapConcat(before, after, f);
    FlatMapOne(x, f);
  }

  /** The results do not depend on the order, as a multiset. */
  lemma {:induction false} FlatMapOfPermutation<T, R>(xs: seq<T>, ys: seq<T>, f: T -> seq<R>)
    requires multiset(xs) == multiset(ys)
    ensures multiset(FlatMap(xs, f)) == multiset(FlatMap(ys, f))
  {
    if xs == [] {
      assert |multiset(ys)| == 0;
    } else {
      var front, last := xs[..|xs| - 1], xs[|xs| - 1];
      assert xs == front + [last] + [] && front + [] == front;
      RemoveOne(front, last, []);
      MultisetMembers(xs, ys);
      assert last in xs && last in ys;
      var i :| 0 <= i < |ys| && ys[i] == last;
      var before, after := ys[..i], ys[i + 1..];
      assert ys == before + [last] + after;
      RemoveOne(before, last, after);
      OneLess(multiset(front), multiset(before + after), last);
      FlatMapOfPermutation(front, before + after, f);
      FlatMapAround(before, last, after, f);
    }
  }

  lemma OneLess<T>(a: multiset<T>, b: multiset<T>, x: T)
    requires a + multiset{x} == b + multiset{x}
    ensures a == b
  {
    forall y: T
      ensures a[y] == b[y]
    {
      assert (a + multiset{x})[y] == (b + multiset{x})[y];
    }
    SameCounts(a, b);
  }

  // ---------- blocks of one size ----------

  /** Place `at` of block `i`, in blocks of `size`. */
  function Position(size: nat, i: nat, at: nat): nat {
    i * size + at
  }

  lemma OneMoreBlock(n: nat, size: nat)
    ensures Position(size, n + 1, 0) == Position(size, n, 0) + size
  {}

  lemma {:induction false} FlatMapLength<T, R>(xs: seq<T>, f: T -> seq<R>, size: nat)
    requires forall x :: x in xs ==> |f(x)| == size
    ensures |FlatMap(xs, f)| == Position(size, |xs|, 0)
  {
    if xs != [] {
      FlatMapLength(xs[..|xs| - 1], f, size);
      OneMoreBlock(|xs| - 1, size);
    }
  }

  lemma {:induction false} FlatMapAt<T, R>(xs: seq<T>, f: T -> seq<R>, size: nat, i: nat, at: nat)
    requires forall x :: x in xs ==> |f(x)| == size
    requires i < |xs| && at < size
    ensures Position(size, i, at) < |FlatMap(xs, f)|
    ensures at < |f(xs[i])| && FlatMap(xs, f)[Position(size, i, at)] == f(xs[i])[at]
  {
    var last := |xs| - 1;
    var front := FlatMap(xs[..last], f);
    if i < last {
      FlatMapAt(xs[..last], f, size, i, at);
      AtFirst(front, f(xs[last]), Position(size, i, at));
    } else {
      FlatMapLength(xs[..last], f, size);
      AtSecond(front, f(xs[last]), at);
    }
  }

  lemma AtFirst<T>(a: seq<T>, b: seq<T>, at: int)
    requires 0 <= at < |a|
    ensures at < |a + b| && (a + b)[at] == a[at]
  {}

  lemma AtSecond<T>(a: seq<T>, b: seq<T>, at: int)
    requires 0 <= at < |b|
    ensures |a| + at < |a + b| && (a + b)[|a| + at] == b[at]
  {}

  predicate Distinct<T(==)>(xs: seq<T>) {
    forall i, j :: 0 <= i < j < |xs| ==> xs[i] != xs[j]
  }

  lemma {:induction false} DistinctCount<T>(xs: seq<T>, x: T)
    requires Distinct(xs)
    ensures multiset(xs)[x] == if x in xs then 1 else 0
  {
    if xs != [] {
      DistinctCount(xs[1..], x);
      assert xs == [xs[0]] + xs[1..];
    }
  }

  /** The distinct values of `f` over a sequence, in order of first occurrence. */
  function Keys<T, K(==)>(xs: seq<T>, f: T -> K): (keys: seq<K>)
    ensures Distinct(keys)
    ensures forall x :: x in xs ==> f(x) in keys
    ensures forall k :: k in keys ==> exists x :: x in xs && f(x) == k
  {
    if xs == [] then []
    else
      var last := xs[|xs| - 1];
      var keys := Keys(xs[..|xs| - 1], f);
      if f(last) in keys then keys else keys + [f(last)]
  }

  lemma DistinctPermutation<T>(xs: seq<T>, ys: seq<T>)
    requires Distinct(xs) && multiset(xs) == multiset(ys)
    ensures Distinct(ys)
  {
    forall i, j | 0 <= i < j < |ys|
      ensures ys[i] != ys[j]
    {
      DistinctCount(xs, ys[i]);
      assert ys == ys[..j] + [ys[j]] + ys[j + 1..];
      assert ys[i] in ys[..j];
    }
  }
}
